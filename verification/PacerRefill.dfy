/**
 What the token bucket owes its callers (src/bridge.rs, `SendPacer`): time is turned into tokens
 without loss up to the burst, so nobody sleeps who need not, and nobody sleeps longer than needed.
 */
module PacerRefill {
  import opened SendPacer

  /** What a caller finds on arrival: what was held and what the time since has earned, up to the burst. */
  lemma FindsExactly(b: Bucket, cfg: Config, read: real, stamp: real)
    requires cfg.interval > 0.0 && Valid(b, cfg) && b.last <= read <= stamp
    ensures Arrive(b, cfg, read, stamp).tokens == Min(b.tokens + (read - b.last) / cfg.interval, cfg.burst as real)
    ensures read > b.last ==> Arrive(b, cfg, read, stamp).last == stamp
    ensures read == b.last ==> Arrive(b, cfg, read, stamp) == b
  {
    EarnsNothingBack(b.last, read, cfg);
    if read > b.last {
      EarnsSomething(b.last, read, cfg);
    } else {
      EarnedAdds(b.last, b.last, b.last, cfg);
    }
  }

  lemma EarnsSomething(start: real, end: real, cfg: Config)
    requires cfg.interval > 0.0 && start < end
    ensures Earned(start, end, cfg) > 0.0
  {
    assert Earned(start, end, cfg) * cfg.interval == end - start;
  }

  /** A call need not sleep. */
  predicate Prompt(b: Bucket, cfg: Config, c: Call)
    requires cfg.interval > 0.0
  {
    Arrive(b, cfg, c.read, c.stamp).tokens >= 1.0
  }

  /** A call sleeps exactly when less than one token was held and earned. */
  lemma SleepsExactly(b: Bucket, cfg: Config, c: Call)
    requires cfg.interval > 0.0 && cfg.burst >= 1 && Valid(b, cfg) && b.last <= c.read <= c.stamp
    ensures !Prompt(b, cfg, c) <==> b.tokens + (c.read - b.last) / cfg.interval < 1.0
  {
    FindsExactly(b, cfg, c.read, c.stamp);
  }

  /** A prompt call takes one token and no more. */
  lemma PromptTakesOne(b: Bucket, cfg: Config, c: Call)
    requires cfg.interval > 0.0 && Valid(b, cfg) && b.last <= c.read <= c.stamp && Prompt(b, cfg, c)
    ensures Turn(b, cfg, c).tokens == Min(b.tokens + (c.read - b.last) / cfg.interval, cfg.burst as real) - 1.0
  {
    FindsExactly(b, cfg, c.read, c.stamp);
  }

  /** A sleeper takes one token too, and keeps for the next caller what it overslept. */
  lemma SleeperTakesOne(b: Bucket, cfg: Config, c: Call)
    requires cfg.interval > 0.0 && cfg.burst >= 1 && Plausible(b, cfg, c) && !Prompt(b, cfg, c)
    ensures var arrived := Arrive(b, cfg, c.read, c.stamp);
            var found := Min(arrived.tokens + (c.wakeRead - arrived.last) / cfg.interval, cfg.burst as real);
            Turn(b, cfg, c) == Bucket(found - 1.0, c.wakeStamp)
  {
    NoDebtDiscarded(b, cfg, c);
  }

  // ----- a burst after a pause -----

  /** The calls come in the order of the clock. */
  ghost predicate InTime(b: Bucket, cfg: Config, calls: seq<Call>)
    requires cfg.interval > 0.0
  {
    forall n :: 0 <= n < |calls| ==> After(b, cfg, calls, n).last <= calls[n].read <= calls[n].stamp
  }

  lemma CapAndFloor(tokens: real, more: real, burst: real, floor: real)
    requires more >= 0.0 && floor <= burst && tokens >= floor
    ensures Min(tokens + more, burst) >= floor
  {
  }

  /** A call that finds a whole token leaves one less, or more. */
  lemma ServedFromHeld(b: Bucket, cfg: Config, c: Call, floor: real)
    requires cfg.interval > 0.0 && Valid(b, cfg) && b.last <= c.read <= c.stamp
    requires 1.0 <= floor <= cfg.burst as real && b.tokens >= floor
    ensures Prompt(b, cfg, c) && Turn(b, cfg, c).tokens >= floor - 1.0 && Valid(Turn(b, cfg, c), cfg)
  {
    FindsExactly(b, cfg, c.read, c.stamp);
    EarnsNothingBack(b.last, c.read, cfg);
    CapAndFloor(b.tokens, (c.read - b.last) / cfg.interval, cfg.burst as real, floor);
  }

  /** With `k` tokens held, the next `k` calls are prompt. */
  lemma {:induction false} HeldTokensServe(b: Bucket, cfg: Config, calls: seq<Call>, k: nat, n: nat)
    requires cfg.interval > 0.0 && Valid(b, cfg) && InTime(b, cfg, calls) && n <= |calls| && n <= k <= cfg.burst
    requires b.tokens >= k as real
    ensures After(b, cfg, calls, n).tokens >= (k - n) as real && Valid(After(b, cfg, calls, n), cfg)
    ensures forall m :: 0 <= m < n ==> Prompt(After(b, cfg, calls, m), cfg, calls[m])
    decreases n
  {
    if n == 0 {
    } else {
      HeldTokensServe(b, cfg, calls, k, n - 1);
      var before, c := After(b, cfg, calls, n - 1), calls[n - 1];
      assert before.last <= c.read <= c.stamp;
      ServedFromHeld(before, cfg, c, (k - n + 1) as real);
    }
  }

  /** A pause of a full burst's earning fills the bucket, whatever it held. */
  lemma PauseFills(b: Bucket, cfg: Config, read: real, stamp: real)
    requires cfg.interval > 0.0 && Valid(b, cfg) && b.last + cfg.burst as real * cfg.interval <= read <= stamp
    requires cfg.burst >= 1
    ensures Arrive(b, cfg, read, stamp).tokens == cfg.burst as real
  {
    EarnsAtLeast(b.last, read, cfg, cfg.burst as real);
  }

  /** After such a pause a whole burst of calls is let through without any sleep. */
  lemma BurstAfterPause(b: Bucket, cfg: Config, calls: seq<Call>)
    requires cfg.interval > 0.0 && cfg.burst >= 1 && Valid(b, cfg) && InTime(b, cfg, calls)
    requires 0 < |calls| <= cfg.burst && b.last + cfg.burst as real * cfg.interval <= calls[0].read
    ensures forall m :: 0 <= m < |calls| ==> Prompt(After(b, cfg, calls, m), cfg, calls[m])
  {
    var first, rest := After(b, cfg, calls, 1), calls[1..];
    assert After(b, cfg, calls, 0) == b && b.last <= calls[0].read <= calls[0].stamp;
    PauseFills(b, cfg, calls[0].read, calls[0].stamp);
    assert first == Take(Arrive(b, cfg, calls[0].read, calls[0].stamp));
    forall n | 0 <= n <= |rest| ensures After(first, cfg, rest, n) == After(b, cfg, calls, n + 1) {
      ShiftedAfter(b, cfg, calls, n);
    }
    assert InTime(first, cfg, rest) by {
      forall n | 0 <= n < |rest| ensures After(first, cfg, rest, n).last <= rest[n].read <= rest[n].stamp {
        assert rest[n] == calls[n + 1];
        assert After(b, cfg, calls, n + 1).last <= calls[n + 1].read <= calls[n + 1].stamp;
      }
    }
    HeldTokensServe(first, cfg, rest, cfg.burst - 1, |rest|);
    forall m | 0 < m < |calls| ensures Prompt(After(b, cfg, calls, m), cfg, calls[m]) {
      assert Prompt(After(first, cfg, rest, m - 1), cfg, rest[m - 1]);
    }
  }

  lemma {:induction false} ShiftedAfter(b: Bucket, cfg: Config, calls: seq<Call>, n: nat)
    requires cfg.interval > 0.0 && calls != [] && n <= |calls| - 1
    ensures After(After(b, cfg, calls, 1), cfg, calls[1..], n) == After(b, cfg, calls, n + 1)
    decreases n
  {
    if n == 0 {
    } else {
      ShiftedAfter(b, cfg, calls, n - 1);
      assert calls[1..][n - 1] == calls[n];
    }
  }

  // ----- sustained demand -----

  /** The call arrives at once, finds no token, and wakes as soon as it asked to. */
  predicate SleepsJust(b: Bucket, cfg: Config, c: Call)
    requires cfg.interval > 0.0
  {
    var arrived := Arrive(b, cfg, c.read, c.stamp);
    && b.last == c.read == c.stamp && arrived.tokens < 1.0
    && c.wakeRead == c.wakeStamp == arrived.last + Shortfall(arrived, cfg)
  }

  /** It wakes to exactly one token, and leaves none. */
  lemma JustSlept(b: Bucket, cfg: Config, c: Call)
    requires cfg.interval > 0.0 && cfg.burst >= 1 && Valid(b, cfg) && SleepsJust(b, cfg, c)
    ensures Turn(b, cfg, c) == Bucket(0.0, b.last + (1.0 - b.tokens) * cfg.interval)
  {
    FindsExactly(b, cfg, c.read, c.stamp);
    var d := 1.0 - b.tokens;
    assert c.wakeRead - b.last == d * cfg.interval;
    assert Earned(b.last, c.wakeRead, cfg) == d by {
      assert (d * cfg.interval) / cfg.interval == d;
    }
  }

  /** On an empty bucket it leaves it empty, one interval later. */
  lemma JustSleptEmpty(b: Bucket, cfg: Config, c: Call)
    requires cfg.interval > 0.0 && cfg.burst >= 1 && b.tokens == 0.0 && SleepsJust(b, cfg, c)
    ensures Turn(b, cfg, c) == Bucket(0.0, b.last + cfg.interval)
  {
    JustSlept(b, cfg, c);
    assert (1.0 - b.tokens) * cfg.interval == cfg.interval;
  }

  /** `n` intervals later. */
  function Later(start: real, n: nat, interval: real): real {
    if n == 0 then start else Later(start, n - 1, interval) + interval
  }

  lemma {:induction false} LaterByIntervals(start: real, n: nat, interval: real)
    ensures Later(start, n, interval) == start + n as real * interval
  {
    if n == 0 {
    } else {
      LaterByIntervals(start, n - 1, interval);
      assert n as real * interval == (n - 1) as real * interval + interval;
    }
  }

  /** Each of the first `n` calls sleeps just as long as needed. */
  ghost predicate AllSleepJust(b: Bucket, cfg: Config, calls: seq<Call>, n: nat)
    requires cfg.interval > 0.0 && n <= |calls|
  {
    n == 0 ||
    (AllSleepJust(b, cfg, calls, n - 1) && SleepsJust(After(b, cfg, calls, n - 1), cfg, calls[n - 1]))
  }

  lemma {:induction false} EmptyEachInterval(b: Bucket, cfg: Config, calls: seq<Call>, n: nat)
    requires cfg.interval > 0.0 && cfg.burst >= 1 && b.tokens == 0.0 && n <= |calls|
    requires AllSleepJust(b, cfg, calls, n)
    ensures After(b, cfg, calls, n) == Bucket(0.0, Later(b.last, n, cfg.interval))
    decreases n
  {
    if n == 0 {
    } else {
      EmptyEachInterval(b, cfg, calls, n - 1);
      var before := After(b, cfg, calls, n - 1);
      JustSleptEmpty(before, cfg, calls[n - 1]);
    }
  }

  /** Callers that arrive at once and find no token are served one per interval, neither faster nor
      slower. */
  lemma SustainedRate(b: Bucket, cfg: Config, calls: seq<Call>, n: nat)
    requires cfg.interval > 0.0 && cfg.burst >= 1 && b.tokens == 0.0 && n <= |calls|
    requires AllSleepJust(b, cfg, calls, n)
    ensures After(b, cfg, calls, n) == Bucket(0.0, b.last + n as real * cfg.interval)
  {
    EmptyEachInterval(b, cfg, calls, n);
    LaterByIntervals(b.last, n, cfg.interval);
  }
}
