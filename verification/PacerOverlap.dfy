/**
 The token bucket under callers that overlap (src/bridge.rs, `SendPacer`): arrivals and wakings
 in any order. A sleeper holds no token while it sleeps, so another caller may take the one it
 waits for; the clamp at zero then forgives what it is short of.
 */
module PacerOverlap {
  import opened SendPacer

  /** One locked section of `wait_turn`: a caller arrives, or a sleeper wakes and takes a token. */
  datatype Event = Arrival(read: real, stamp: real) | Waking(read: real, stamp: real)

  function Step(b: Bucket, cfg: Config, e: Event): Bucket
    requires cfg.interval > 0.0
  {
    match e
    case Arrival(read, stamp) =>
      var arrived := Arrive(b, cfg, read, stamp);
      if arrived.tokens >= 1.0 then Take(arrived) else arrived
    case Waking(read, stamp) => WakeUp(b, cfg, read, stamp)
  }

  /** A caller is let through; otherwise it goes to sleep. */
  predicate Grants(b: Bucket, cfg: Config, e: Event)
    requires cfg.interval > 0.0
  {
    e.Waking? || Arrive(b, cfg, e.read, e.stamp).tokens >= 1.0
  }

  /** What a waking caller is short of a whole token. */
  function Forgiven(b: Bucket, cfg: Config, e: Event): real
    requires cfg.interval > 0.0
  {
    if e.Arrival? then 0.0 else Max(1.0 - Filled(b.tokens, Earned(b.last, e.read, cfg), cfg), 0.0)
  }

  function Run(b: Bucket, cfg: Config, es: seq<Event>): Bucket
    requires cfg.interval > 0.0
    decreases |es|
  {
    if es == [] then b else Run(Step(b, cfg, es[0]), cfg, es[1..])
  }

  function GrantsIn(b: Bucket, cfg: Config, es: seq<Event>): nat
    requires cfg.interval > 0.0
    decreases |es|
  {
    if es == [] then 0
    else if Grants(b, cfg, es[0]) then 1 + GrantsIn(Step(b, cfg, es[0]), cfg, es[1..])
    else GrantsIn(Step(b, cfg, es[0]), cfg, es[1..])
  }

  function ForgivenIn(b: Bucket, cfg: Config, es: seq<Event>): real
    requires cfg.interval > 0.0
    decreases |es|
  {
    if es == [] then 0.0 else Forgiven(b, cfg, es[0]) + ForgivenIn(Step(b, cfg, es[0]), cfg, es[1..])
  }

  /** The clock does not run backwards. */
  predicate Forward(b: Bucket, cfg: Config, es: seq<Event>)
    requires cfg.interval > 0.0
    decreases |es|
  {
    es == [] || (b.last <= es[0].read <= es[0].stamp && Forward(Step(b, cfg, es[0]), cfg, es[1..]))
  }

  /** One event takes a token out of what came in, but for what is forgiven. */
  lemma StepAccounts(b: Bucket, cfg: Config, e: Event)
    requires cfg.interval > 0.0 && cfg.burst >= 1 && Valid(b, cfg) && b.last <= e.read <= e.stamp
    ensures var after := Step(b, cfg, e);
            && Valid(after, cfg) && b.last <= after.last && Forgiven(b, cfg, e) >= 0.0
            && (Grants(b, cfg, e) ==> after.tokens <= cfg.burst as real - 1.0)
            && after.tokens + (if Grants(b, cfg, e) then 1.0 else 0.0) - Forgiven(b, cfg, e)
               <= b.tokens + Earned(b.last, after.last, cfg)
  {
    if e.Arrival? {
      ArriveAccounts(b, cfg, e.read, e.stamp);
    } else {
      EarnsNothingBack(b.last, e.read, cfg);
      EarnsMoreLater(b.last, e.read, e.stamp, cfg);
    }
  }

  lemma {:induction false} RunAccounts(b: Bucket, cfg: Config, es: seq<Event>)
    requires cfg.interval > 0.0 && cfg.burst >= 1 && Valid(b, cfg) && Forward(b, cfg, es)
    ensures var end := Run(b, cfg, es);
            && Valid(end, cfg) && ForgivenIn(b, cfg, es) >= 0.0
            && end.tokens + GrantsIn(b, cfg, es) as real - ForgivenIn(b, cfg, es)
               <= b.tokens + Earned(b.last, end.last, cfg)
    decreases |es|
  {
    if es == [] {
      EarnsNothingBack(b.last, b.last, cfg);
    } else {
      var next := Step(b, cfg, es[0]);
      StepAccounts(b, cfg, es[0]);
      RunAccounts(next, cfg, es[1..]);
      EarnedAdds(b.last, next.last, Run(next, cfg, es[1..]).last, cfg);
    }
  }

  /**
   The rate bound for any interleaving: counted from a grant on, the grants exceed the burst and
   one more per interval by no more than what was forgiven.
   */
  lemma OverlapBound(b: Bucket, cfg: Config, e: Event, es: seq<Event>)
    requires cfg.interval > 0.0 && cfg.burst >= 1 && Valid(b, cfg)
    requires Forward(b, cfg, [e] + es) && Grants(b, cfg, e)
    ensures var first := Step(b, cfg, e);
            (1 + GrantsIn(first, cfg, es)) as real
            <= cfg.burst as real + Earned(first.last, Run(first, cfg, es).last, cfg) + ForgivenIn(first, cfg, es)
  {
    assert ([e] + es)[0] == e && ([e] + es)[1..] == es;
    StepAccounts(b, cfg, e);
    RunAccounts(Step(b, cfg, e), cfg, es);
  }

  /** Nobody is let through, and the clock is read once. */
  predicate AllSleep(b: Bucket, cfg: Config, es: seq<Event>)
    requires cfg.interval > 0.0
    decreases |es|
  {
    es == [] || (!Grants(b, cfg, es[0]) && es[0].read == es[0].stamp && AllSleep(Step(b, cfg, es[0]), cfg, es[1..]))
  }

  lemma {:induction false} SleepersTakeNothing(b: Bucket, cfg: Config, es: seq<Event>)
    requires cfg.interval > 0.0 && cfg.burst >= 1 && b.tokens < 1.0 && Forward(b, cfg, es) && AllSleep(b, cfg, es)
    ensures var end := Run(b, cfg, es);
            end.tokens < 1.0 && b.last <= end.last && end.tokens == b.tokens + Earned(b.last, end.last, cfg)
    decreases |es|
  {
    if es == [] {
      EarnedAdds(b.last, b.last, b.last, cfg);
    } else {
      var next := Step(b, cfg, es[0]);
      EarnsNothingBack(b.last, es[0].read, cfg);
      EarnedAdds(b.last, b.last, b.last, cfg);
      if Earned(b.last, es[0].read, cfg) <= 0.0 {
        NoTimeNoTokens(b, es[0].read, cfg);
      }
      SleepersTakeNothing(next, cfg, es[1..]);
      EarnedAdds(b.last, next.last, Run(next, cfg, es[1..]).last, cfg);
    }
  }

  lemma NoTimeNoTokens(b: Bucket, read: real, cfg: Config)
    requires cfg.interval > 0.0 && b.last <= read && Earned(b.last, read, cfg) <= 0.0
    ensures read == b.last
  {
    assert Earned(b.last, read, cfg) * cfg.interval == read - b.last;
  }

  /**
   A sleeper is forgiven nothing when nobody is let through while it sleeps: others may arrive
   and go to sleep, it still wakes to a whole token.
   */
  lemma UndisturbedSleeperPays(b: Bucket, cfg: Config, es: seq<Event>, e: Event)
    requires cfg.interval > 0.0 && cfg.burst >= 1 && b.tokens < 1.0 && Forward(b, cfg, es) && AllSleep(b, cfg, es)
    requires e.Waking? && b.last + Shortfall(b, cfg) <= e.read
    ensures Forgiven(Run(b, cfg, es), cfg, e) == 0.0
  {
    var end := Run(b, cfg, es);
    SleepersTakeNothing(b, cfg, es);
    EarnedAdds(b.last, end.last, e.read, cfg);
    EarnsAtLeast(b.last, e.read, cfg, 1.0 - b.tokens);
  }

  /** The bucket after `n` sleepers woke up, all at time `at`. */
  function WakeMany(b: Bucket, cfg: Config, at: real, n: nat): Bucket
    requires cfg.interval > 0.0
  {
    if n == 0 then b else WakeUp(WakeMany(b, cfg, at, n - 1), cfg, at, at)
  }

  /**
   Overlapping callers break the bound by any margin: any number of them, arriving at an empty
   bucket, all sleep the same time and are all let through at once. The first takes the token;
   each of the others is short of one, which the clamp forgets.
   */
  lemma {:induction false} OverlappingCallersUnbounded(cfg: Config, now: real, n: nat)
    requires cfg.interval > 0.0 && cfg.burst >= 1 && n >= 1
    ensures var empty := Bucket(0.0, now);
            && Arrive(empty, cfg, now, now) == empty
            && now + Shortfall(empty, cfg) == now + cfg.interval
            && WakeMany(empty, cfg, now + cfg.interval, n) == Bucket(0.0, now + cfg.interval)
    decreases n
  {
    if n == 1 {
    } else {
      OverlappingCallersUnbounded(cfg, now, n - 1);
    }
  }
}
