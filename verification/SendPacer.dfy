/**
 The token bucket that paces outbound sends (src/bridge.rs, `SendPacer`), over real numbers.
 A caller that finds no token sleeps without the lock and takes its token when it wakes.
 */
module SendPacer {
  datatype Config = Config(burst: nat, interval: real)

  /** The tokens, and the clock reading they were last refilled at. */
  datatype Bucket = Bucket(tokens: real, last: real)

  function Min(a: real, b: real): real { if a < b then a else b }

  function Max(a: real, b: real): real { if a < b then b else a }

  /** How many tokens the time between two clock readings earns. */
  function Earned(start: real, end: real, cfg: Config): real
    requires cfg.interval > 0.0
  {
    (end - start) / cfg.interval
  }

  /** Tokens refilled up to the burst. */
  function Filled(tokens: real, earned: real, cfg: Config): real { Min(tokens + earned, cfg.burst as real) }

  /** A caller arrives: refill for the time up to `read`; the clock is read again to stamp it. */
  function Arrive(b: Bucket, cfg: Config, read: real, stamp: real): Bucket
    requires cfg.interval > 0.0
  {
    var earned := Earned(b.last, read, cfg);
    if earned > 0.0 then Bucket(Filled(b.tokens, earned, cfg), stamp) else b
  }

  function Take(b: Bucket): Bucket { b.(tokens := b.tokens - 1.0) }

  /** How long an arrived caller without a token sleeps, before jitter. */
  function Shortfall(b: Bucket, cfg: Config): real { (1.0 - b.tokens) * cfg.interval }

  /** A sleeper wakes: refill, and take a token, or what there is of one. */
  function WakeUp(b: Bucket, cfg: Config, read: real, stamp: real): Bucket
    requires cfg.interval > 0.0
  {
    Bucket(Max(Filled(b.tokens, Earned(b.last, read, cfg), cfg) - 1.0, 0.0), stamp)
  }

  /** The clock readings of one call; the second pair is used by a caller that had to sleep. */
  datatype Call = Call(read: real, stamp: real, jitter: real, wakeRead: real, wakeStamp: real)

  /** One call of `wait_turn` from start to end. */
  function Turn(b: Bucket, cfg: Config, c: Call): Bucket
    requires cfg.interval > 0.0
  {
    var arrived := Arrive(b, cfg, c.read, c.stamp);
    if arrived.tokens >= 1.0 then Take(arrived) else WakeUp(arrived, cfg, c.wakeRead, c.wakeStamp)
  }

  /** The clock does not run backwards, and a sleep lasts at least as long as asked. */
  predicate Plausible(b: Bucket, cfg: Config, c: Call)
    requires cfg.interval > 0.0
  {
    var arrived := Arrive(b, cfg, c.read, c.stamp);
    && b.last <= c.read <= c.stamp && c.jitter >= 0.0
    && (arrived.tokens < 1.0 ==> arrived.last + Shortfall(arrived, cfg) + c.jitter <= c.wakeRead <= c.wakeStamp)
  }

  predicate Valid(b: Bucket, cfg: Config) {
    0.0 <= b.tokens <= cfg.burst as real
  }

  class Pacer {
    const cfg: Config
    var bucket: Bucket

    constructor (cfg: Config, now: real)
      ensures this.cfg == cfg && bucket == Bucket(cfg.burst as real, now)
    {
      this.cfg := cfg;
      bucket := Bucket(cfg.burst as real, now);
    }

    /** A call that nobody else's call overlaps. An interval of zero paces nothing. */
    method WaitTurn(c: Call)
      requires cfg.interval >= 0.0
      modifies this
      ensures bucket == if cfg.interval == 0.0 then old(bucket) else Turn(old(bucket), cfg, c)
    {
      if cfg.interval == 0.0 {
        return;
      }
      var refill := (c.read - bucket.last) / cfg.interval;
      if refill > 0.0 {
        bucket := Bucket(Min(bucket.tokens + refill, cfg.burst as real), c.stamp);
      }
      if bucket.tokens >= 1.0 {
        bucket := bucket.(tokens := bucket.tokens - 1.0);
      } else {
        var again := (c.wakeRead - bucket.last) / cfg.interval;
        var tokens := Min(bucket.tokens + again, cfg.burst as real);
        bucket := Bucket(Max(tokens - 1.0, 0.0), c.wakeStamp);
      }
    }
  }

  // ----- arithmetic of the refill -----

  lemma QuotientAtLeast(x: real, d: real, k: real)
    requires k > 0.0 && x >= d * k
    ensures x / k >= d
  {
    var q := x / k;
    assert q * k == x;
    assert q < d ==> (d - q) * k > 0.0;
  }

  lemma EarnsAtLeast(start: real, end: real, cfg: Config, tokens: real)
    requires cfg.interval > 0.0 && start + tokens * cfg.interval <= end
    ensures Earned(start, end, cfg) >= tokens
  {
    QuotientAtLeast(end - start, tokens, cfg.interval);
  }

  lemma EarnsNothingBack(start: real, end: real, cfg: Config)
    requires cfg.interval > 0.0 && start <= end
    ensures Earned(start, end, cfg) >= 0.0
  {
    EarnsAtLeast(start, end, cfg, 0.0);
  }

  lemma EarnedAdds(start: real, mid: real, end: real, cfg: Config)
    requires cfg.interval > 0.0
    ensures Earned(start, mid, cfg) + Earned(mid, end, cfg) == Earned(start, end, cfg)
  {
    assert (mid - start) / cfg.interval + (end - mid) / cfg.interval == (end - start) / cfg.interval;
  }

  lemma EarnsMoreLater(start: real, end: real, later: real, cfg: Config)
    requires cfg.interval > 0.0 && end <= later
    ensures Earned(start, end, cfg) <= Earned(start, later, cfg)
  {
    EarnedAdds(start, end, later, cfg);
    EarnsNothingBack(end, later, cfg);
  }

  // ----- one call -----

  /**
   What a sleeper finds when it wakes is at least one token: taking it never goes below zero,
   so the clamp discards nothing.
   */
  lemma NoDebtDiscarded(b: Bucket, cfg: Config, c: Call)
    requires cfg.interval > 0.0 && cfg.burst >= 1 && Plausible(b, cfg, c)
    ensures var arrived := Arrive(b, cfg, c.read, c.stamp);
            arrived.tokens < 1.0 ==>
              && Earned(arrived.last, c.wakeRead, cfg) >= 1.0 - arrived.tokens
              && Filled(arrived.tokens, Earned(arrived.last, c.wakeRead, cfg), cfg) - 1.0 >= 0.0
  {
    var arrived := Arrive(b, cfg, c.read, c.stamp);
    if arrived.tokens < 1.0 {
      EarnsAtLeast(arrived.last, c.wakeRead, cfg, 1.0 - arrived.tokens);
    }
  }

  lemma ArriveAccounts(b: Bucket, cfg: Config, read: real, stamp: real)
    requires cfg.interval > 0.0 && Valid(b, cfg) && b.last <= read <= stamp
    ensures var arrived := Arrive(b, cfg, read, stamp);
            && Valid(arrived, cfg) && b.last <= arrived.last
            && arrived.tokens <= b.tokens + Earned(b.last, arrived.last, cfg)
  {
    EarnsNothingBack(b.last, read, cfg);
    EarnsMoreLater(b.last, read, stamp, cfg);
    EarnsNothingBack(b.last, b.last, cfg);
  }

  lemma WakeAccounts(b: Bucket, cfg: Config, read: real, stamp: real)
    requires cfg.interval > 0.0 && cfg.burst >= 1 && 0.0 <= b.tokens < 1.0 && b.last <= read <= stamp
    requires Earned(b.last, read, cfg) >= 1.0 - b.tokens
    ensures var after := WakeUp(b, cfg, read, stamp);
            && 0.0 <= after.tokens <= cfg.burst as real - 1.0
            && after.tokens + 1.0 <= b.tokens + Earned(b.last, stamp, cfg)
  {
    EarnsMoreLater(b.last, read, stamp, cfg);
  }

  lemma SleepIsForward(b: Bucket, cfg: Config)
    requires cfg.interval > 0.0 && b.tokens < 1.0
    ensures Shortfall(b, cfg) >= 0.0
  {
    var d := 1.0 - b.tokens;
    assert d * cfg.interval > 0.0;
  }

  /** A call leaves the bucket in bounds, and takes a whole token out of what came in. */
  lemma TurnAccounts(b: Bucket, cfg: Config, c: Call)
    requires cfg.interval > 0.0 && cfg.burst >= 1 && Valid(b, cfg) && Plausible(b, cfg, c)
    ensures var after := Turn(b, cfg, c);
            && 0.0 <= after.tokens <= cfg.burst as real - 1.0
            && b.last <= after.last
            && after.tokens + 1.0 <= b.tokens + Earned(b.last, after.last, cfg)
  {
    var arrived := Arrive(b, cfg, c.read, c.stamp);
    ArriveAccounts(b, cfg, c.read, c.stamp);
    if arrived.tokens < 1.0 {
      NoDebtDiscarded(b, cfg, c);
      SleepIsForward(arrived, cfg);
      WakeAccounts(arrived, cfg, c.wakeRead, c.wakeStamp);
      EarnedAdds(b.last, arrived.last, c.wakeStamp, cfg);
    }
  }

  // ----- whole runs -----

  /** The bucket after the first `n` calls, one after the other. */
  function After(b: Bucket, cfg: Config, calls: seq<Call>, n: nat): Bucket
    requires cfg.interval > 0.0 && n <= |calls|
  {
    if n == 0 then b else Turn(After(b, cfg, calls, n - 1), cfg, calls[n - 1])
  }

  predicate PlausibleAt(b: Bucket, cfg: Config, calls: seq<Call>, n: nat)
    requires cfg.interval > 0.0 && n < |calls|
  {
    Plausible(After(b, cfg, calls, n), cfg, calls[n])
  }

  /** Every call is plausible in the state the ones before it left. */
  ghost predicate Serialized(b: Bucket, cfg: Config, calls: seq<Call>)
    requires cfg.interval > 0.0
  {
    forall n :: 0 <= n < |calls| ==> PlausibleAt(b, cfg, calls, n)
  }

  /** When the `n`-th call got its token: the clock reading it stamped. */
  function GrantTime(b: Bucket, cfg: Config, calls: seq<Call>, n: nat): real
    requires cfg.interval > 0.0 && n < |calls|
  {
    After(b, cfg, calls, n + 1).last
  }

  lemma OneMoreIsValid(b: Bucket, cfg: Config, calls: seq<Call>, n: nat)
    requires cfg.interval > 0.0 && cfg.burst >= 1 && n < |calls|
    requires Valid(After(b, cfg, calls, n), cfg) && PlausibleAt(b, cfg, calls, n)
    ensures Valid(After(b, cfg, calls, n + 1), cfg)
  {
    TurnAccounts(After(b, cfg, calls, n), cfg, calls[n]);
  }

  lemma {:induction false} StaysValid(b: Bucket, cfg: Config, calls: seq<Call>, n: nat)
    requires cfg.interval > 0.0 && cfg.burst >= 1 && Valid(b, cfg) && Serialized(b, cfg, calls) && n <= |calls|
    ensures Valid(After(b, cfg, calls, n), cfg)
    decreases n
  {
    if n == 0 {
    } else {
      StaysValid(b, cfg, calls, n - 1);
      assert PlausibleAt(b, cfg, calls, n - 1);
      OneMoreIsValid(b, cfg, calls, n - 1);
    }
  }

  /** From `first` to `last`, `n` tokens were given out of what was held and what came in. */
  ghost predicate Accounts(first: Bucket, last: Bucket, n: int, cfg: Config)
    requires cfg.interval > 0.0
  {
    last.tokens + n as real <= first.tokens + Earned(first.last, last.last, cfg)
  }

  /** The `n`-th call in a run takes a whole token out of what came in. */
  lemma CallAccounts(b: Bucket, cfg: Config, calls: seq<Call>, n: nat)
    requires cfg.interval > 0.0 && cfg.burst >= 1 && Valid(b, cfg) && Serialized(b, cfg, calls) && n < |calls|
    ensures 0.0 <= After(b, cfg, calls, n + 1).tokens <= cfg.burst as real - 1.0
    ensures Accounts(After(b, cfg, calls, n), After(b, cfg, calls, n + 1), 1, cfg)
  {
    StaysValid(b, cfg, calls, n);
    assert PlausibleAt(b, cfg, calls, n);
    TurnAccounts(After(b, cfg, calls, n), cfg, calls[n]);
  }

  lemma AccountsAdd(first: Bucket, mid: Bucket, last: Bucket, n: int, cfg: Config)
    requires cfg.interval > 0.0 && Accounts(first, mid, n, cfg) && Accounts(mid, last, 1, cfg)
    ensures Accounts(first, last, n + 1, cfg)
  {
    EarnedAdds(first.last, mid.last, last.last, cfg);
  }

  /** Between two points of a run the bucket gives out at most what it held and what came in. */
  lemma {:induction false} RunAccounts(b: Bucket, cfg: Config, calls: seq<Call>, i: nat, j: nat)
    requires cfg.interval > 0.0 && i <= j <= |calls|
    requires forall n :: 0 <= n < |calls| ==> Accounts(After(b, cfg, calls, n), After(b, cfg, calls, n + 1), 1, cfg)
    ensures Accounts(After(b, cfg, calls, i), After(b, cfg, calls, j), j - i, cfg)
    decreases j - i
  {
    var first := After(b, cfg, calls, i);
    if i == j {
      EarnsNothingBack(first.last, first.last, cfg);
    } else {
      RunAccounts(b, cfg, calls, i, j - 1);
      assert Accounts(After(b, cfg, calls, j - 1), After(b, cfg, calls, j - 1 + 1), 1, cfg);
      AccountsAdd(first, After(b, cfg, calls, j - 1), After(b, cfg, calls, j), j - 1 - i, cfg);
    }
  }

  /**
   The rate bound for callers that wait their turn one after the other: the grants from the
   `i`-th to the `j`-th number at most the burst and one more per interval between them.
   */
  lemma RateBound(b: Bucket, cfg: Config, calls: seq<Call>, i: nat, j: nat)
    requires cfg.interval > 0.0 && cfg.burst >= 1 && Valid(b, cfg) && Serialized(b, cfg, calls)
    requires i <= j < |calls|
    ensures (j - i + 1) as real
            <= cfg.burst as real + Earned(GrantTime(b, cfg, calls, i), GrantTime(b, cfg, calls, j), cfg)
  {
    forall n | 0 <= n < |calls|
      ensures Accounts(After(b, cfg, calls, n), After(b, cfg, calls, n + 1), 1, cfg)
    {
      CallAccounts(b, cfg, calls, n);
    }
    RunAccounts(b, cfg, calls, i + 1, j + 1);
    CallAccounts(b, cfg, calls, i);
    CallAccounts(b, cfg, calls, j);
  }
}
