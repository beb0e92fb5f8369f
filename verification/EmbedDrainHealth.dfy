/**
 The drain worker without a healthy sidecar (src/embed_drain.rs): what loading, outages and
 deliveries do to its failure count, its backoff and its batch size.
 */
module EmbedDrainHealth {
  import opened Wrappers
  import opened EmbedDrain
  import opened EmbedDrainSafety
  import opened EmbedDrainProgress
  import opened EmbedDrainTicks

  /** The sidecar is unhealthy, or has been loading for too long, or the pending rows cannot be read. */
  predicate Outage(p: Pass) {
    p.health == Unhealthy || p.health == LoadingTooLong || (p.health == Healthy && !p.fetchOk)
  }

  /** A sidecar that is still loading costs nothing, however often the worker looks. */
  lemma {:induction false} LoadingCostsNothing(s: World, cfg: Config, passes: seq<Pass>)
    requires !s.worker.notifyOnly && forall p :: p in passes ==> p.health == Loading
    ensures RunPasses(s, cfg, passes) == s
    decreases |passes|
  {
    if passes == [] {
    } else {
      assert passes[0] in passes && forall p :: p in passes[1..] ==> p in passes;
      LoadingCostsNothing(s, cfg, passes[1..]);
    }
  }

  /** No tick wakes a silent worker. */
  lemma {:induction false} SilentIgnoresTicks(s: World, cfg: Config, passes: seq<Pass>)
    requires s.worker.notifyOnly && forall p :: p in passes ==> p.wake == Tick
    ensures RunPasses(s, cfg, passes) == s
    decreases |passes|
  {
    if passes == [] {
    } else {
      assert passes[0] in passes && forall p :: p in passes[1..] ==> p in passes;
      SilentIgnoresTicks(s, cfg, passes[1..]);
    }
  }

  /** A notification wakes it: the pass is that of a listening worker without failures or backoff,
      with the batch size and the tracker it had. */
  lemma NotificationStartsOver(s: World, cfg: Config, p: Pass)
    requires s.worker.notifyOnly && p.wake == Notified
    ensures var w := s.worker;
            RunPass(s, cfg, p) == RunPass(World(Worker(w.batch, 1, 0, false, w.lastIds, w.streak), s.rows), cfg, p)
  {
  }

  /** An outage is one failure more, and nothing else but silence or a longer backoff. */
  lemma OutageCountsOne(s: World, cfg: Config, p: Pass)
    requires !s.worker.notifyOnly && Outage(p)
    ensures var w, s' := s.worker, RunPass(s, cfg, p);
            && s'.rows == s.rows && s'.worker.failures == w.failures + 1
            && s'.worker.batch == w.batch && s'.worker.lastIds == w.lastIds && s'.worker.streak == w.streak
            && (s'.worker.notifyOnly <==> cfg.threshold <= w.failures + 1)
            && s'.worker.backoff == if s'.worker.notifyOnly then w.backoff else Min(2 * w.backoff, cfg.backoffCap)
  {
  }

  function Outages(passes: seq<Pass>): nat {
    if passes == [] then 0 else (if Outage(passes[0]) then 1 else 0) + Outages(passes[1..])
  }

  /** `b` doubled `n` times. */
  function Doubled(b: nat, n: nat): nat {
    if n == 0 then b else 2 * Doubled(b, n - 1)
  }

  lemma {:induction false} DoubledOnce(b: nat, n: nat)
    ensures Doubled(2 * b, n) == Doubled(b, n + 1)
  {
    if n == 0 {
    } else {
      DoubledOnce(b, n - 1);
    }
  }

  lemma {:induction false} DoubledGrows(b: nat, n: nat)
    ensures Doubled(b, n) >= b
  {
    if n == 0 {
    } else {
      DoubledGrows(b, n - 1);
    }
  }

  lemma {:induction false} DoubledMonotone(a: nat, b: nat, n: nat)
    requires a <= b
    ensures Doubled(a, n) <= Doubled(b, n)
  {
    if n == 0 {
    } else {
      DoubledMonotone(a, b, n - 1);
    }
  }

  /** Ticks on which the sidecar is loading or something is out of reach. */
  predicate OnlyOutages(passes: seq<Pass>) {
    forall p :: p in passes ==> p.wake == Tick && (Outage(p) || p.health == Loading)
  }

  /** The failures that silence a worker. */
  function Patience(cfg: Config): int { if cfg.threshold > 1 then cfg.threshold else 1 }

  /** What `n` outages make of a listening worker. */
  ghost predicate Worn(w: Worker, w': Worker, cfg: Config, n: nat) {
    && w'.failures == Min(w.failures + n, Patience(cfg))
    && (w'.notifyOnly <==> w.failures + n >= Patience(cfg))
    && (!w'.notifyOnly ==> w'.backoff == if n == 0 then w.backoff else Min(Doubled(w.backoff, n), cfg.backoffCap))
    && w'.batch == w.batch && w'.lastIds == w.lastIds && w'.streak == w.streak
  }

  lemma {:induction false} OutagesWear(s: World, cfg: Config, passes: seq<Pass>)
    requires !s.worker.notifyOnly && s.worker.failures < Patience(cfg) && OnlyOutages(passes)
    ensures RunPasses(s, cfg, passes).rows == s.rows
    ensures Worn(s.worker, RunPasses(s, cfg, passes).worker, cfg, Outages(passes))
    decreases |passes|
  {
    if passes == [] {
    } else {
      var p, next := passes[0], RunPass(s, cfg, passes[0]);
      assert p in passes && forall q :: q in passes[1..] ==> q in passes;
      if Outage(p) {
        OutageCountsOne(s, cfg, p);
      }
      if next.worker.notifyOnly {
        SilentIgnoresTicks(next, cfg, passes[1..]);
      } else {
        OutagesWear(next, cfg, passes[1..]);
        if Outage(p) {
          BackoffDoubles(s.worker.backoff, cfg.backoffCap, Outages(passes[1..]));
        }
      }
    }
  }

  /** Doubling with a cap at each step is doubling with the cap at the end. */
  lemma BackoffDoubles(backoff: nat, cap: nat, n: nat)
    ensures Min(Doubled(Min(2 * backoff, cap), n), cap) == Min(Doubled(backoff, n + 1), cap)
  {
    DoubledOnce(backoff, n);
    DoubledGrows(cap, n);
    if 2 * backoff > cap {
      DoubledMonotone(cap, 2 * backoff, n);
    }
  }

  /**
   From a fresh worker, ticks on which the sidecar is loading or something is out of reach silence
   it exactly when at least as many of them are outages as the threshold says, and at least one;
   until then each outage doubles the backoff up to the cap, and no row changes.
   */
  lemma OutagesSilenceExactly(rows: seq<Row>, cfg: Config, passes: seq<Pass>)
    requires OnlyOutages(passes)
    ensures var after, n := RunPasses(World(Fresh(cfg), rows), cfg, passes), Outages(passes);
            && after.rows == rows
            && (after.worker.notifyOnly <==> n >= 1 && n >= cfg.threshold)
            && (!after.worker.notifyOnly ==>
                  after.worker.failures == n
                  && after.worker.backoff == if n == 0 then 1 else Min(Doubled(1, n), cfg.backoffCap))
  {
    OutagesWear(World(Fresh(cfg), rows), cfg, passes);
  }

  // ----- deliveries -----

  /** A pass that embeds a batch and writes its vectors. */
  predicate Delivered(s: World, cfg: Config, p: Pass) {
    && (p.wake == Notified || !s.worker.notifyOnly) && p.health == Healthy && p.fetchOk
    && p.answer.Vectors? && p.writeOk
    && WithText(FetchPending(s.rows, s.worker.batch), cfg) != []
  }

  /** A delivery forgives every failure, and lets the batch grow. */
  lemma DeliveryForgives(s: World, cfg: Config, p: Pass)
    requires Delivered(s, cfg, p)
    ensures RunPass(s, cfg, p).worker == Worker(NextSize(s.worker.batch, cfg), 1, 0, false, [], 0)
  {
  }

  /** With a refused write of the vectors, one failure is counted instead. */
  lemma RefusedWriteCountsOne(s: World, cfg: Config, p: Pass)
    requires Delivered(s, cfg, p.(writeOk := true)) && !p.writeOk
    ensures var w' := RunPass(s, cfg, p).worker;
            && w'.failures == 1 && w'.batch == s.worker.batch && w'.lastIds == [] && w'.streak == 0
            && (w'.notifyOnly <==> cfg.threshold <= 1)
  {
  }

  /** A healthy pass with nothing pending, or nothing to embed, leaves a listening worker alone. */
  lemma IdlePassCostsNothing(s: World, cfg: Config, p: Pass)
    requires !s.worker.notifyOnly && p.health == Healthy && p.fetchOk
    requires WithText(FetchPending(s.rows, s.worker.batch), cfg) == []
    ensures RunPass(s, cfg, p).worker == s.worker
  {
  }

  // ----- a batch that fails -----

  /** A pass on which the embedder rejects the batch. */
  predicate Rejected(s: World, cfg: Config, p: Pass) {
    && !s.worker.notifyOnly && p.health == Healthy && p.fetchOk && p.answer.EmbedError? && Ready(s, cfg) != []
  }

  /** A rejected batch counts one failure, and the tracker remembers it unless it is a single row; the
      third rejection of the same rows in a row halves the batch instead, and forgives everything. */
  lemma RejectionCounts(s: World, cfg: Config, p: Pass)
    requires Rejected(s, cfg, p)
    ensures var w, w', ids := s.worker, RunPass(s, cfg, p).worker, Ids(Ready(s, cfg));
            if |ids| > 1 && w.lastIds == ids && w.streak >= 2 then
              w' == Worker(if w.batch < 2 then 1 else w.batch / 2, 1, 0, false, [], 0)
            else
              && w'.failures == w.failures + 1 && w'.batch == w.batch
              && (w'.notifyOnly <==> cfg.threshold <= w.failures + 1)
              && (if |ids| == 1 then w'.lastIds == [] && w'.streak == 0
                  else w'.lastIds == ids && w'.streak == if w.lastIds == ids then w.streak + 1 else 1)
  {
  }

  /** A batch of one row with a text, that the embedder always rejects. */
  predicate LonePoison(s: World, cfg: Config, sc: Sidecar) {
    var batch := FetchPending(s.rows, s.worker.batch);
    |batch| == 1 && Poison(batch[0], cfg, sc)
  }

  lemma LonePoisonTick(s: World, cfg: Config, sc: Sidecar)
    requires LonePoison(s, cfg, sc) && !s.worker.notifyOnly
    ensures var s' := RunPass(s, cfg, HealthyPass(s, cfg, sc, Tick));
            && s'.rows == s.rows && s'.worker.batch == s.worker.batch && s'.worker.failures == s.worker.failures + 1
            && (s'.worker.notifyOnly <==> cfg.threshold <= s.worker.failures + 1)
  {
    var batch := FetchPending(s.rows, s.worker.batch);
    NoneWithoutText(batch, cfg);
    NothingToMark(s.rows, batch, cfg);
    assert AnyPoison(Ready(s, cfg), cfg, sc);
    RejectionCounts(s, cfg, HealthyPass(s, cfg, sc, Tick));
  }

  /** A lone row that the embedder rejects is never retired: ticks leave it pending, and silence the
      worker exactly when there are as many of them as it has failures left. */
  lemma {:induction false} LonePoisonSilences(s: World, cfg: Config, sc: Sidecar, n: nat)
    requires LonePoison(s, cfg, sc) && !s.worker.notifyOnly && s.worker.failures < Patience(cfg)
    ensures var s' := HealthyRun(s, cfg, sc, Tick, n);
            s'.rows == s.rows && (s'.worker.notifyOnly <==> s.worker.failures + n >= Patience(cfg))
    decreases n
  {
    if n == 0 {
    } else {
      var next := RunPass(s, cfg, HealthyPass(s, cfg, sc, Tick));
      LonePoisonTick(s, cfg, sc);
      if next.worker.notifyOnly {
        SilentStays(next, cfg, sc, n - 1);
      } else {
        LonePoisonSilences(next, cfg, sc, n - 1);
      }
    }
  }

  lemma {:induction false} SilentStays(s: World, cfg: Config, sc: Sidecar, n: nat)
    requires s.worker.notifyOnly
    ensures HealthyRun(s, cfg, sc, Tick, n) == s
    decreases n
  {
    if n == 0 {
    } else {
      SilentStays(s, cfg, sc, n - 1);
    }
  }

  // ----- how the batch grows back -----

  /** The batch size after a delivery, whatever else the worker holds. */
  function NextSize(batch: nat, cfg: Config): nat {
    Grow(Worker(batch, 1, 0, false, [], 0), cfg).batch
  }

  function SizeAfter(batch: nat, cfg: Config, n: nat): nat {
    if n == 0 then batch else NextSize(SizeAfter(batch, cfg, n - 1), cfg)
  }

  /** The model advertises less than the worker is configured for. */
  predicate Clamped(cfg: Config) {
    cfg.maxBatch.Some? && cfg.maxBatch.value < cfg.configured
  }

  /** Without a clamp, deliveries double the batch up to the configured size. */
  lemma {:induction false} UnclampedDoubles(batch: nat, cfg: Config, n: nat)
    requires !Clamped(cfg) && 1 <= batch <= cfg.configured
    ensures SizeAfter(batch, cfg, n) == Min(Doubled(batch, n), cfg.configured)
  {
    if n == 0 {
    } else {
      UnclampedDoubles(batch, cfg, n - 1);
    }
  }

  /** With one, they double it as long as the double fits, and then no more. */
  lemma {:induction false} ClampedDoubles(batch: nat, cfg: Config, n: nat) returns (k: nat)
    requires Clamped(cfg) && 1 <= batch <= cfg.maxBatch.value
    ensures k <= n && SizeAfter(batch, cfg, n) == Doubled(batch, k) <= cfg.maxBatch.value
    ensures k < n ==> Doubled(batch, k + 1) > cfg.maxBatch.value
  {
    if n == 0 {
      k := 0;
    } else {
      k := ClampedDoubles(batch, cfg, n - 1);
      if k == n - 1 && Doubled(batch, n) <= cfg.maxBatch.value {
        k := n;
      }
    }
  }

  lemma {:induction false} DoubledOutgrows(b: nat, n: nat)
    requires b >= 1
    ensures Doubled(b, n) > n
  {
    if n == 0 {
    } else {
      DoubledOutgrows(b, n - 1);
    }
  }

  lemma {:induction false} DoubledRises(b: nat, i: nat, j: nat)
    requires b >= 1 && i < j
    ensures Doubled(b, i) < Doubled(b, j)
    decreases j
  {
    DoubledGrows(b, j - 1);
    if i == j - 1 {
    } else {
      DoubledRises(b, i, j - 1);
    }
  }

  /**
   Deliveries bring the batch back to its largest size exactly when the model does not clamp it, or
   the clamp is the present size doubled some number of times: the step from below the clamp to
   above it is refused, not cut.
   */
  lemma BatchRecoversExactly(w: Worker, cfg: Config)
    requires InBounds(w, cfg) && cfg.configured >= 1 && (cfg.maxBatch.Some? ==> cfg.maxBatch.value >= 1)
    ensures (exists n: nat :: SizeAfter(w.batch, cfg, n) == Ceiling(cfg))
            <==> !Clamped(cfg) || exists k: nat :: Doubled(w.batch, k) == cfg.maxBatch.value
  {
    if !Clamped(cfg) {
      UnclampedDoubles(w.batch, cfg, cfg.configured);
      DoubledOutgrows(w.batch, cfg.configured);
      assert SizeAfter(w.batch, cfg, cfg.configured) == Ceiling(cfg);
    } else {
      if n: nat :| SizeAfter(w.batch, cfg, n) == Ceiling(cfg) {
        var k := ClampedDoubles(w.batch, cfg, n);
        assert Doubled(w.batch, k) == cfg.maxBatch.value;
      }
      if k: nat :| Doubled(w.batch, k) == cfg.maxBatch.value {
        var i := ClampedDoubles(w.batch, cfg, k);
        if i < k {
          if i + 1 < k {
            DoubledRises(w.batch, i + 1, k);
          }
          assert false;
        }
        assert SizeAfter(w.batch, cfg, k) == Ceiling(cfg);
      }
    }
  }
}
