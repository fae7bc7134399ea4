/** Bounds on what the limiter admits, over every run. */
module RateLimiterTheorems {
  import opened RateLimiter

  // ---- refilling ----

  lemma GainAdds(rpm: nat, x: real, y: real)
    requires 0.0 <= y
    ensures Gain(rpm, x + y) == Gain(rpm, x) + Gain(rpm, y)
    ensures 0.0 <= Gain(rpm, y)
  {
    assert (x + y) * (rpm as real) == x * (rpm as real) + y * (rpm as real);
    assert y * (rpm as real) >= 0.0;
  }

  /** Tokens come back at rpm a minute, up to rpm. */
  lemma RefillRate(rpm: nat, b: Bucket, t: real, u: real)
    requires t <= u && b.tokens <= rpm as real && b.lastCheck <= t
    ensures Refilled(rpm, b, u) == MinReal(Refilled(rpm, b, t) + Gain(rpm, u - t), rpm as real)
  {
    hide Gain;
    GainAdds(rpm, t - b.lastCheck, u - t);
    assert u - b.lastCheck == (t - b.lastCheck) + (u - t);
  }

  lemma RefillPositive(rpm: nat, b: Bucket, t: real)
    requires 0.0 <= b.tokens && b.lastCheck <= t
    ensures 0.0 <= Refilled(rpm, b, t) <= rpm as real
  {
    hide Gain;
    GainAdds(rpm, 0.0, t - b.lastCheck);
  }

  /** A bucket that has been idle for five minutes is full. */
  lemma StaleIsFull(rpm: nat, b: Bucket, now: real, t: real)
    requires 0.0 <= b.tokens && b.lastCheck < now - STALE && now <= t
    ensures Refilled(rpm, b, t) == rpm as real
  {
    var rest := t - b.lastCheck - 300.0;
    GainAdds(rpm, 300.0, rest);
    assert Gain(rpm, 300.0) == 5.0 * (rpm as real);
    assert t - b.lastCheck == 300.0 + rest;
  }

  /** Cleaning up never changes the tokens an address has from now on. */
  lemma EvictionInvisible(s: State, now: real, ip: string, t: real)
    requires BucketsValid(s, now) && now <= t
    ensures Level(s.(buckets := Fresh(s.buckets, now)), ip, t) == Level(s, ip, t)
  {
    if ip in s.buckets && s.buckets[ip].lastCheck < now - STALE {
      StaleIsFull(s.rpm, s.buckets[ip], now, t);
    }
  }

  // ---- one call ----

  lemma LevelRate(s: State, ip: string, t: real, u: real)
    requires BucketsValid(s, t) && t <= u
    ensures 0.0 <= Level(s, ip, t) <= s.rpm as real
    ensures Level(s, ip, u) == MinReal(Level(s, ip, t) + Gain(s.rpm, u - t), s.rpm as real)
  {
    if ip in s.buckets {
      RefillRate(s.rpm, s.buckets[ip], t, u);
      RefillPositive(s.rpm, s.buckets[ip], t);
    } else {
      GainAdds(s.rpm, 0.0, u - t);
    }
  }

  lemma {:induction false} SubsetSmaller(a: set<string>, b: set<string>)
    requires a <= b
    ensures |a| <= |b|
    decreases |a|
  {
    if a != {} {
      var x :| x in a;
      SubsetSmaller(a - {x}, b - {x});
    }
  }

  /** The state once ip's bucket holds n tokens. */
  function WithBucket(s: State, ip: string, n: real, now: real): State {
    s.(buckets := s.buckets[ip := Bucket(n, now)])
  }

  lemma FreshValid(s: State, now: real)
    requires BucketsValid(s, now) && |s.buckets| <= MAX_CLIENTS
    ensures BucketsValid(s.(buckets := Fresh(s.buckets, now)), now) && |Fresh(s.buckets, now)| <= MAX_CLIENTS
  {
    var kept := Fresh(s.buckets, now);
    SubsetSmaller(kept.Keys, s.buckets.Keys);
    assert |kept| == |kept.Keys| && |s.buckets| == |s.buckets.Keys|;
  }

  lemma CallKeepsValid(s: State, ip: string, clock: real, now: real)
    requires Valid(s, clock) && clock <= now
    ensures Valid(Call(s, ip, now).0, now) && Call(s, ip, now).0.rpm == s.rpm
  {
    hide Level, Fresh;
    assert BucketsValid(s, now);
    LevelRate(s, ip, now, now);
    if !Crowded(s, ip) && Level(s, ip, now) >= 1.0 {
      FreshValid(WithBucket(s, ip, Level(s, ip, now) - 1.0, now), now);
    }
  }

  lemma BucketLevel(s: State, ip: string, n: real, now: real, other: string, u: real)
    ensures Level(WithBucket(s, ip, n, now), other, u) ==
      if other == ip then MinReal(n + Gain(s.rpm, u - now), s.rpm as real) else Level(s, other, u)
  {
  }

  /** A call takes one token from its own address if it is admitted, and nothing else from anyone. */
  lemma CallTakesOne(s: State, ip: string, clock: real, now: real, other: string, u: real)
    requires Valid(s, clock) && clock <= now <= u
    ensures var (t, admitted) := Call(s, ip, now);
            && (admitted ==> Level(s, ip, now) >= 1.0)
            && Level(t, other, u) ==
               if other != ip || !admitted then Level(s, other, u)
               else MinReal(Level(s, ip, now) - 1.0 + Gain(s.rpm, u - now), s.rpm as real)
  {
    assert BucketsValid(s, now);
    LevelRate(s, ip, now, u);
    var tokens := Level(s, ip, now);
    BucketLevel(s, ip, tokens, now, other, u);
    BucketLevel(s, ip, tokens - 1.0, now, other, u);
    if tokens >= 1.0 {
      var all := WithBucket(s, ip, tokens - 1.0, now);
      EvictionInvisible(all, now, other, u);
      assert all.(buckets := Fresh(all.buckets, now)).buckets == Fresh(all.buckets, now);
    }
    hide Gain, Refilled, Fresh;
  }

  /** A call is admitted exactly when its address has a token and room among the clients, and the window is not full. */
  lemma AdmittedIff(s: State, ip: string, now: real)
    ensures Call(s, ip, now).1 <==>
      && Level(s, ip, now) >= 1.0
      && (ip in s.buckets || |s.buckets| < 10_000)
      && (now > s.globalReset || s.globalCount < 120)
  {
    hide Level, Fresh;
  }

  /** Every hundredth admitted call of a window leaves no bucket that was idle for five minutes. */
  lemma CleanedUp(s: State, ip: string, now: real)
    ensures var (t, admitted) := Call(s, ip, now);
            admitted && t.globalCount % 100 == 0 ==>
              forall k :: k in t.buckets ==> t.buckets[k].lastCheck >= now - 300.0
  {
    hide Level;
  }

  /** An address that waits for its share of a minute has a token again. */
  lemma WaitingRestores(s: State, ip: string, clock: real, now: real)
    requires Valid(s, clock) && s.rpm > 0 && clock + 60.0 / s.rpm as real <= now
    ensures Level(s, ip, now) >= 1.0
  {
    var share := 60.0 / s.rpm as real;
    LevelRate(s, ip, clock, clock + share);
    LevelRate(s, ip, clock, now);
    assert share > 0.0 && share * (s.rpm as real) == 60.0;
    GainAdds(s.rpm, share, now - clock - share);
    assert now - clock == share + (now - clock - share);
    assert Gain(s.rpm, share) == 1.0;
  }

  // ---- runs ----

  datatype Request = Request(ip: string, now: real)

  /** Calls in the order of their times, none before clock. */
  predicate InOrder(calls: seq<Request>, clock: real) {
    calls == [] || (clock <= calls[0].now && InOrder(calls[1..], calls[0].now))
  }

  function One(b: bool): nat { if b then 1 else 0 }

  /** How many calls from ip, or from anyone, are admitted between from and to. */
  function Admitted(s: State, calls: seq<Request>, ip: string, from: real, to: real): nat
    decreases |calls|
  {
    if calls == [] then 0
    else
      var (t, admitted) := Call(s, calls[0].ip, calls[0].now);
      One(admitted && calls[0].ip == ip && from <= calls[0].now <= to) + Admitted(t, calls[1..], ip, from, to)
  }

  function AdmittedAll(s: State, calls: seq<Request>, from: real, to: real): nat
    decreases |calls|
  {
    if calls == [] then 0
    else
      var (t, admitted) := Call(s, calls[0].ip, calls[0].now);
      One(admitted && from <= calls[0].now <= to) + AdmittedAll(t, calls[1..], from, to)
  }

  lemma {:induction false} NoneAfter(s: State, calls: seq<Request>, ip: string, from: real, to: real, clock: real)
    requires InOrder(calls, clock) && to < clock
    ensures Admitted(s, calls, ip, from, to) == 0 && AdmittedAll(s, calls, from, to) == 0
    decreases |calls|
  {
    if calls != [] {
      NoneAfter(Call(s, calls[0].ip, calls[0].now).0, calls[1..], ip, from, to, calls[0].now);
    }
  }

  /** From any state on, an address is admitted at most as often as it has and gains tokens. */
  lemma {:induction false} TokensBound(s: State, calls: seq<Request>, ip: string, from: real, to: real, clock: real)
    requires Valid(s, clock) && InOrder(calls, clock) && clock <= to
    ensures Admitted(s, calls, ip, from, to) as real <= Level(s, ip, clock) + Gain(s.rpm, to - clock)
    decreases |calls|
  {
    hide Level, Gain, Call, Valid;
    assert BucketsValid(s, clock) by { ValidBuckets(s, clock); }
    LevelRate(s, ip, clock, clock);
    GainAdds(s.rpm, 0.0, to - clock);
    if calls != [] {
      var c := calls[0];
      var t := Call(s, c.ip, c.now).0;
      if c.now > to {
        NoneAfter(s, calls, ip, from, to, c.now);
      } else {
        CallKeepsValid(s, c.ip, clock, c.now);
        CallTakesOne(s, c.ip, clock, c.now, ip, c.now);
        LevelRate(s, ip, clock, c.now);
        GainAdds(s.rpm, c.now - clock, to - c.now);
        assert to - clock == (c.now - clock) + (to - c.now);
        NoGain(s.rpm, c.now);
        TokensBound(t, calls[1..], ip, from, to, c.now);
      }
    }
  }

  lemma ValidBuckets(s: State, clock: real)
    requires Valid(s, clock)
    ensures BucketsValid(s, clock)
  {
  }

  lemma GainIs(rpm: nat, d: real)
    ensures Gain(rpm, d) == rpm as real * d / 60.0
  {
  }

  lemma NoGain(rpm: nat, now: real)
    ensures Gain(rpm, now - now) == 0.0
  {
  }

  /** In any stretch of d seconds of any run, one address is admitted at most rpm + rpm * d / 60 times. */
  lemma {:induction false} AddressBound(s: State, calls: seq<Request>, ip: string, from: real, d: real, clock: real)
    requires Valid(s, clock) && InOrder(calls, clock) && 0.0 <= d
    ensures Admitted(s, calls, ip, from, from + d) as real <= s.rpm as real + s.rpm as real * d / 60.0
    decreases |calls|
  {
    GainIs(s.rpm, d);
    hide Gain, Call, Valid, Level;
    GainAdds(s.rpm, 0.0, d);
    if calls != [] {
      var c := calls[0];
      if c.now < from {
        CallKeepsValid(s, c.ip, clock, c.now);
        AddressBound(Call(s, c.ip, c.now).0, calls[1..], ip, from, d, c.now);
      } else if c.now > from + d {
        NoneAfter(s, calls, ip, from, from + d, c.now);
      } else {
        ValidLater(s, clock, c.now);
        TokensBound(s, calls, ip, from, from + d, c.now);
        ValidBuckets(s, c.now);
        LevelRate(s, ip, c.now, c.now);
        GainAdds(s.rpm, from + d - c.now, c.now - from);
        assert d == (from + d - c.now) + (c.now - from);
      }
    }
  }

  lemma ValidLater(s: State, clock: real, now: real)
    requires Valid(s, clock) && clock <= now
    ensures Valid(s, now)
  {
  }

  // ---- the global window ----

  /** Until the window ends, the cap is shared. */
  lemma {:induction false} WindowBound(s: State, calls: seq<Request>, from: real, to: real, clock: real)
    requires Valid(s, clock) && InOrder(calls, clock) && to <= s.globalReset
    ensures AdmittedAll(s, calls, from, to) <= GLOBAL_RPM - s.globalCount
    decreases |calls|
  {
    if calls != [] {
      var c := calls[0];
      CallKeepsValid(s, c.ip, clock, c.now);
      CallWindow(s, c.ip, c.now);
      hide Call, Valid;
      if c.now > to {
        NoneAfter(s, calls, "", from, to, c.now);
        CountBound(s, clock);
      } else {
        WindowBound(Call(s, c.ip, c.now).0, calls[1..], from, to, c.now);
      }
    }
  }

  lemma CountBound(s: State, clock: real)
    requires Valid(s, clock)
    ensures 0 <= s.globalCount <= GLOBAL_RPM
  {
  }

  lemma CallWindow(s: State, ip: string, now: real)
    ensures var (t, admitted) := Call(s, ip, now);
            || (!admitted && t == s)
            || (t.globalCount == Window(s, now).0 + One(admitted) && t.globalReset == Window(s, now).1)
  {
    hide Level, Fresh;
  }

  /** In any sixty seconds of any run at most twice the global cap is admitted. */
  lemma {:induction false} GlobalBound(s: State, calls: seq<Request>, from: real, clock: real)
    requires Valid(s, clock) && InOrder(calls, clock)
    ensures AdmittedAll(s, calls, from, from + 60.0) <= 2 * 120
    decreases |calls|
  {
    if calls != [] {
      var c := calls[0];
      CountBound(s, clock);
      CallKeepsValid(s, c.ip, clock, c.now);
      hide Call, Valid;
      if c.now < from {
        GlobalBound(Call(s, c.ip, c.now).0, calls[1..], from, c.now);
      } else {
        ValidLater(s, clock, c.now);
        TwoWindows(s, calls, from, c.now);
      }
    }
  }

  /** From a time inside the stretch on: what is left of the current window, and one more. */
  lemma {:induction false} TwoWindows(s: State, calls: seq<Request>, from: real, clock: real)
    requires Valid(s, clock) && InOrder(calls, clock) && from <= clock
    ensures AdmittedAll(s, calls, from, from + MINUTE) <= 2 * GLOBAL_RPM - s.globalCount
    decreases |calls|
  {
    CountBound(s, clock);
    if calls != [] {
      var c := calls[0];
      CallKeepsValid(s, c.ip, clock, c.now);
      CallWindow(s, c.ip, c.now);
      hide Call, Valid;
      var t := Call(s, c.ip, c.now).0;
      if t.globalReset == c.now + MINUTE && c.now > s.globalReset {
        WindowBound(t, calls[1..], from, from + MINUTE, c.now);
      } else {
        TwoWindows(t, calls[1..], from, c.now);
      }
    }
  }
}
