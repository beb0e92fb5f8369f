/**
 The drain worker left to its periodic ticks. Failures that do not lead to a bisection count
 towards notify-only mode, in which a tick wakes nobody. How many of them can pile up before a
 bisection depends on the batch size and on the pending rows without a text: marking those makes
 room in the batch, and a batch that grows starts its count of equal failures again.
 */
module EmbedDrainTicks {
  import opened Wrappers
  import opened EmbedDrain
  import opened EmbedDrainSafety
  import opened EmbedDrainProgress

  /** `n` healthy ticks leave no pending row before the first poison row. */
  predicate DrainedBy(s: World, cfg: Config, sc: Sidecar, n: nat) {
    AtPoison(HealthyRun(s, cfg, sc, Tick, n), cfg, sc)
  }

  ghost predicate TicksDrain(s: World, cfg: Config, sc: Sidecar) {
    exists n: nat :: DrainedBy(s, cfg, sc, n)
  }

  /** The pending rows without a text. */
  function Textless(s: World, cfg: Config): nat {
    |WithoutText(PendingRows(s.rows), cfg)|
  }

  /** A worker that a tick wakes. */
  ghost predicate Listening(s: World, cfg: Config) {
    Sane(s, cfg) && !s.worker.notifyOnly
  }

  /** How often in a row the current batch has failed already. */
  function Seen(s: World, cfg: Config): nat {
    if s.worker.lastIds == Ids(Ready(s, cfg)) then s.worker.streak else 0
  }

  function Min(a: int, b: int): int { if a < b then a else b }

  /** The failures a worker may add to its count before it bisects, plus one. */
  function Room(textless: nat, ceiling: nat): int {
    BISECT_AFTER + Min(textless, 2 * (ceiling - 2))
  }

  // ----- the rows of a failing batch -----

  lemma {:induction false} WithTextAppends(a: seq<Row>, b: seq<Row>, cfg: Config)
    ensures WithText(a + b, cfg) == WithText(a, cfg) + WithText(b, cfg)
    decreases |b|
  {
    if b == [] {
      assert a + b == a;
    } else {
      assert (a + b)[..|a + b| - 1] == a + b[..|b| - 1];
      WithTextAppends(a, b[..|b| - 1], cfg);
    }
  }

  lemma {:induction false} WithoutTextAppends(a: seq<Row>, b: seq<Row>, cfg: Config)
    ensures WithoutText(a + b, cfg) == WithoutText(a, cfg) + WithoutText(b, cfg)
  {
    if a == [] {
      assert a + b == b;
    } else {
      assert (a + b)[1..] == a[1..] + b;
      WithoutTextAppends(a[1..], b, cfg);
    }
  }

  lemma {:induction false} WithoutAppends(a: seq<Row>, b: seq<Row>, ids: seq<string>)
    ensures Without(a + b, ids) == Without(a, ids) + Without(b, ids)
  {
    if a == [] {
      assert a + b == b;
    } else {
      assert (a + b)[1..] == a[1..] + b;
      WithoutAppends(a[1..], b, ids);
    }
  }

  lemma {:induction false} WithoutOthers(rows: seq<Row>, ids: seq<string>)
    requires forall r :: r in rows ==> r.id !in ids
    ensures Without(rows, ids) == rows
  {
    if rows == [] {
    } else {
      assert rows[0] in rows && forall r :: r in rows[1..] ==> r in rows;
      WithoutOthers(rows[1..], ids);
    }
  }

  lemma {:induction false} WithoutTextless(rows: seq<Row>, ids: seq<string>, cfg: Config)
    requires forall r :: r in rows ==> (r.id in ids <==> TextOf(r, cfg).None?)
    ensures Without(rows, ids) == WithText(rows, cfg)
  {
    if rows == [] {
    } else {
      var front, last := rows[..|rows| - 1], rows[|rows| - 1];
      assert rows == front + [last];
      assert last in rows && forall r :: r in front ==> r in rows;
      WithoutTextless(front, ids, cfg);
      WithoutAppends(front, [last], ids);
      assert [last][1..] == [];
    }
  }

  /** Taking the textless rows out of a front part leaves its other rows, and the rest. */
  lemma FrontCleared(a: seq<Row>, b: seq<Row>, cfg: Config)
    requires UniqueIds(a + b)
    ensures Without(a + b, Ids(WithoutText(a, cfg))) == WithText(a, cfg) + b
  {
    var gone := WithoutText(a, cfg);
    var ids := Ids(gone);
    WithoutTextAre(a, cfg);
    IdsAre(gone);
    forall r | r in a ensures r.id in ids <==> TextOf(r, cfg).None? {
      if r.id in ids {
        var g :| g in gone && g.id == r.id;
        OneRow(a, b, g, r);
      }
    }
    forall r | r in b ensures r.id !in ids {
      if r.id in ids {
        var g :| g in gone && g.id == r.id;
        OtherRow(a, b, g, r);
      }
    }
    WithoutAppends(a, b, ids);
    WithoutTextless(a, ids, cfg);
    WithoutOthers(b, ids);
  }

  lemma OneRow(a: seq<Row>, b: seq<Row>, g: Row, r: Row)
    requires UniqueIds(a + b) && g in a && r in a && g.id == r.id
    ensures g == r
  {
    var i :| 0 <= i < |a| && a[i] == g;
    var j :| 0 <= j < |a| && a[j] == r;
    assert (a + b)[i] == g && (a + b)[j] == r;
  }

  lemma OtherRow(a: seq<Row>, b: seq<Row>, g: Row, r: Row)
    requires UniqueIds(a + b) && g in a && r in b
    ensures g.id != r.id
  {
    var i :| 0 <= i < |a| && a[i] == g;
    var j :| 0 <= j < |b| && b[j] == r;
    assert (a + b)[i] == g && (a + b)[|a| + j] == r;
  }

  /** What a batch is split off the pending rows. */
  lemma BatchIsFront(s: World)
    ensures var batch, pending := FetchPending(s.rows, s.worker.batch), PendingRows(s.rows);
            |batch| <= |pending| && pending == batch + pending[|batch|..]
    ensures s.worker.batch >= 1 ==> |FetchPending(s.rows, s.worker.batch)| <= s.worker.batch
  {
  }

  /** A tick on which the batch fails: the textless rows go, the others stay at the front. */
  lemma FailingTick(s: World, cfg: Config, sc: Sidecar)
    requires Sane(s, cfg) && !s.worker.notifyOnly && AnyPoison(Ready(s, cfg), cfg, sc)
    ensures var s' := RunPass(s, cfg, HealthyPass(s, cfg, sc, Tick));
            var batch := FetchPending(s.rows, s.worker.batch);
            && s'.worker == OnEmbedError(s.worker, cfg, Ids(Ready(s, cfg)))
            && |batch| <= |PendingRows(s.rows)|
            && PendingRows(s'.rows) == Ready(s, cfg) + PendingRows(s.rows)[|batch|..]
            && (WithoutText(batch, cfg) == [] ==> PendingRows(s'.rows) == PendingRows(s.rows))
  {
    var batch, pending := FetchPending(s.rows, s.worker.batch), PendingRows(s.rows);
    BatchIsFront(s);
    FetchedBatch(s.rows, s.worker.batch);
    FailedBatchLeaves(s.rows, batch, cfg);
    PendingIdsUnique(s.rows);
    FrontCleared(batch, pending[|batch|..], cfg);
    AllWithText(batch, cfg);
    assert RunPass(s, cfg, HealthyPass(s, cfg, sc, Tick)).rows == MarkEmpty(s.rows, batch, cfg, {});
  }

  // ----- enough room -----

  /** The tracker's ids are those of the first pending rows, all with a text and in one batch. */
  ghost predicate Held(s: World, cfg: Config) {
    var pending, k := PendingRows(s.rows), |s.worker.lastIds|;
    && 2 <= k <= s.worker.batch && k <= |pending|
    && Ids(pending[..k]) == s.worker.lastIds
    && forall r :: r in pending[..k] ==> TextOf(r, cfg).Some?
  }

  /** The next batch is the one that failed last, with nothing left to mark. */
  predicate Settled(s: World, cfg: Config) {
    WithoutText(FetchPending(s.rows, s.worker.batch), cfg) == [] && s.worker.lastIds == Ids(Ready(s, cfg))
  }

  /**
   The failures counted beyond `base`: at most two for each length the failing batch has had, and
   one for each pass that marked a row, plus those since the batch settled.
   */
  ghost predicate Counting(s: World, cfg: Config, textless: nat, base: nat) {
    var w := s.worker;
    && Listening(s, cfg) && Textless(s, cfg) <= textless
    && if w.streak == 0 || !Held(s, cfg) then w.failures <= base
       else
         && w.failures <= base + 2 * (|w.lastIds| - 2) + w.streak
         && w.failures <= base + textless - Textless(s, cfg) + if Settled(s, cfg) then w.streak else 0
  }

  lemma HeldIsFront(s: World, cfg: Config)
    requires Held(s, cfg)
    ensures |s.worker.lastIds| <= |Ready(s, cfg)|
    ensures Ids(Ready(s, cfg)[..|s.worker.lastIds|]) == s.worker.lastIds
    ensures |Ready(s, cfg)| == |s.worker.lastIds| ==> Ids(Ready(s, cfg)) == s.worker.lastIds
  {
    var pending, batch, k := PendingRows(s.rows), FetchPending(s.rows, s.worker.batch), |s.worker.lastIds|;
    assert batch == pending[..k] + batch[k..];
    WithTextAppends(pending[..k], batch[k..], cfg);
    KeepsAll(pending[..k], cfg);
    assert Ready(s, cfg)[..k] == pending[..k];
    if |Ready(s, cfg)| == k {
      assert Ready(s, cfg)[..k] == Ready(s, cfg);
    }
  }

  lemma {:induction false} WithTextShrinks(rows: seq<Row>, cfg: Config)
    ensures |WithText(rows, cfg)| <= |rows|
    ensures forall r :: r in WithText(rows, cfg) ==> TextOf(r, cfg).Some?
  {
    if rows == [] {
    } else {
      WithTextShrinks(rows[..|rows| - 1], cfg);
    }
  }

  /** After a failing batch of at least two rows the tracker holds its ids. */
  lemma FailureHolds(s: World, cfg: Config, sc: Sidecar)
    requires Sane(s, cfg) && !s.worker.notifyOnly && AnyPoison(Ready(s, cfg), cfg, sc) && |Ready(s, cfg)| >= 2
    ensures var s' := RunPass(s, cfg, HealthyPass(s, cfg, sc, Tick));
            s'.worker.streak > 0 ==> Held(s', cfg) && s'.worker.lastIds == Ids(Ready(s, cfg))
  {
    var s' := RunPass(s, cfg, HealthyPass(s, cfg, sc, Tick));
    var ready := Ready(s, cfg);
    FailingTick(s, cfg, sc);
    BatchIsFront(s);
    WithTextShrinks(FetchPending(s.rows, s.worker.batch), cfg);
    assert PendingRows(s'.rows)[..|ready|] == ready;
  }

  /** The textless rows of a failing batch are gone after it. */
  lemma FailureMarks(s: World, cfg: Config, sc: Sidecar)
    requires Sane(s, cfg) && !s.worker.notifyOnly && AnyPoison(Ready(s, cfg), cfg, sc)
    ensures var s' := RunPass(s, cfg, HealthyPass(s, cfg, sc, Tick));
            Textless(s', cfg) == Textless(s, cfg) - |WithoutText(FetchPending(s.rows, s.worker.batch), cfg)|
  {
    var batch, pending := FetchPending(s.rows, s.worker.batch), PendingRows(s.rows);
    var rest := pending[|batch|..];
    FailingTick(s, cfg, sc);
    BatchIsFront(s);
    WithTextShrinks(batch, cfg);
    NoneWithoutText(Ready(s, cfg), cfg);
    WithoutTextAppends(Ready(s, cfg), rest, cfg);
    WithoutTextAppends(batch, rest, cfg);
  }

  lemma {:induction false} NoneWithoutText(batch: seq<Row>, cfg: Config)
    requires forall r :: r in batch ==> TextOf(r, cfg).Some?
    ensures WithoutText(batch, cfg) == []
  {
    if batch == [] {
    } else {
      assert batch[0] in batch && forall r :: r in batch[1..] ==> r in batch;
      NoneWithoutText(batch[1..], cfg);
    }
  }

  /** What a failing batch of at least two rows does to the worker. */
  lemma FailureCounts(w: Worker, cfg: Config, ids: seq<string>)
    requires |ids| >= 2 && w.streak < BISECT_AFTER && !w.notifyOnly
    ensures var w' := OnEmbedError(w, cfg, ids);
            if w.lastIds == ids && w.streak + 1 >= BISECT_AFTER
            then w'.streak == w'.failures == 0 && !w'.notifyOnly
            else && w'.streak == (if w.lastIds == ids then w.streak + 1 else 1) < BISECT_AFTER
                 && w'.failures == w.failures + 1 && w'.lastIds == ids && w'.batch == w.batch
                 && (w'.notifyOnly <==> w.failures + 1 >= cfg.threshold)
  {
  }

  /** With room left, a failing batch neither silences the worker nor breaks the count. */
  lemma FailureKeepsCounting(s: World, cfg: Config, sc: Sidecar, textless: nat, base: nat)
    requires Counting(s, cfg, textless, base) && cfg.threshold >= base + Room(textless, Ceiling(cfg))
    requires AnyPoison(Ready(s, cfg), cfg, sc) && |Ready(s, cfg)| >= 2
    ensures Counting(RunPass(s, cfg, HealthyPass(s, cfg, sc, Tick)), cfg, textless, base)
  {
    var s' := RunPass(s, cfg, HealthyPass(s, cfg, sc, Tick));
    var w, w', ids := s.worker, s'.worker, Ids(Ready(s, cfg));
    var marks := |WithoutText(FetchPending(s.rows, w.batch), cfg)|;
    FailingTick(s, cfg, sc);
    FailureCounts(w, cfg, ids);
    FailureHolds(s, cfg, sc);
    FailureMarks(s, cfg, sc);
    BatchIsFront(s);
    WithTextShrinks(FetchPending(s.rows, w.batch), cfg);
    TickKeepsSane(s, cfg, sc);
    if w'.streak > 0 {
      if w.streak > 0 && Held(s, cfg) {
        HeldIsFront(s, cfg);
      }
      assert w'.failures <= base + 2 * (|ids| - 2) + w'.streak;
      if marks == 0 {
        assert FetchPending(s'.rows, w'.batch) == FetchPending(s.rows, w.batch);
        assert Settled(s', cfg);
      }
    }
  }

  /** Awake, a worker does the same on a tick as on a notification. */
  lemma TickIsNotification(s: World, cfg: Config, sc: Sidecar)
    requires !s.worker.notifyOnly
    ensures RunPass(s, cfg, HealthyPass(s, cfg, sc, Tick)) == RunPass(s, cfg, HealthyPass(s, cfg, sc, Notified))
  {
  }

  lemma TickKeepsSane(s: World, cfg: Config, sc: Sidecar)
    requires Sane(s, cfg) && !s.worker.notifyOnly
    ensures Sane(RunPass(s, cfg, HealthyPass(s, cfg, sc, Tick)), cfg)
  {
    TickIsNotification(s, cfg, sc);
    PassKeepsSane(s, cfg, sc);
  }

  lemma {:induction false} WithoutShrinksTextless(rows: seq<Row>, ids: seq<string>, cfg: Config)
    ensures |WithoutText(Without(rows, ids), cfg)| <= |WithoutText(rows, cfg)|
  {
    if rows == [] {
    } else {
      WithoutShrinksTextless(rows[1..], ids, cfg);
    }
  }

  lemma TickShrinksTextless(s: World, cfg: Config, sc: Sidecar)
    requires Sane(s, cfg) && !s.worker.notifyOnly
    ensures Textless(RunPass(s, cfg, HealthyPass(s, cfg, sc, Tick)), cfg) <= Textless(s, cfg)
  {
    var batch := FetchPending(s.rows, s.worker.batch);
    if batch != [] {
      TickIsNotification(s, cfg, sc);
      PassRows(s, cfg, sc);
      FetchedBatch(s.rows, s.worker.batch);
      HealthyPassLeaves(s.rows, batch, cfg, sc);
      WithoutShrinksTextless(PendingRows(s.rows), Leaving(batch, cfg, sc), cfg);
    }
  }

  /** A batch that embeds, or holds nothing to embed, leaves the count at rest. */
  lemma QuietTickKeepsCounting(s: World, cfg: Config, sc: Sidecar, textless: nat, base: nat)
    requires Counting(s, cfg, textless, base) && !AnyPoison(Ready(s, cfg), cfg, sc)
    ensures Counting(RunPass(s, cfg, HealthyPass(s, cfg, sc, Tick)), cfg, textless, base)
  {
    TickKeepsSane(s, cfg, sc);
    TickShrinksTextless(s, cfg, sc);
    if s.worker.streak > 0 && Held(s, cfg) {
      HeldIsFront(s, cfg);
    }
  }

  /** When the first row with a text is poison, one tick brings it to the front. */
  lemma PoisonComesFirst(s: World, cfg: Config, sc: Sidecar)
    requires Sane(s, cfg) && !s.worker.notifyOnly
    requires Ready(s, cfg) != [] && Poison(Ready(s, cfg)[0], cfg, sc)
    ensures DrainedBy(s, cfg, sc, 1)
  {
    var s' := RunPass(s, cfg, HealthyPass(s, cfg, sc, Tick));
    FailingTick(s, cfg, sc);
    assert PendingRows(s'.rows)[0] == Ready(s, cfg)[0];
    assert HealthyRun(s', cfg, sc, Tick, 0) == s';
  }

  lemma {:induction false} CountingDrains(s: World, cfg: Config, sc: Sidecar, textless: nat, base: nat) returns (n: nat)
    requires Counting(s, cfg, textless, base)
    requires Ceiling(cfg) == 1 || cfg.threshold >= base + Room(textless, Ceiling(cfg))
    ensures DrainedBy(s, cfg, sc, n)
    decreases Measure(s, cfg)
  {
    MeasurePositive(s, cfg);
    if AtPoison(s, cfg, sc) {
      n := 0;
    } else if Ready(s, cfg) != [] && Poison(Ready(s, cfg)[0], cfg, sc) {
      n := 1;
      PoisonComesFirst(s, cfg, sc);
    } else {
      var s' := RunPass(s, cfg, HealthyPass(s, cfg, sc, Tick));
      if AnyPoison(Ready(s, cfg), cfg, sc) {
        BatchIsFront(s);
        WithTextShrinks(FetchPending(s.rows, s.worker.batch), cfg);
        FailureKeepsCounting(s, cfg, sc, textless, base);
      } else {
        QuietTickKeepsCounting(s, cfg, sc, textless, base);
      }
      TickIsNotification(s, cfg, sc);
      HealthyPassProgresses(s, cfg, sc);
      n := CountingDrains(s', cfg, sc, textless, base);
      n := n + 1;
    }
  }

  /**
   Enough room: whatever the table, ticks drain the rows before the first poison row when the
   threshold leaves, beyond the failures already counted, three and one more for each pending row
   without a text, or for twice the batch size less two, whichever is smaller.
   */
  lemma TicksDrainWithRoom(s: World, cfg: Config, sc: Sidecar)
    requires Listening(s, cfg)
    requires Ceiling(cfg) == 1 || cfg.threshold >= s.worker.failures + Room(Textless(s, cfg), Ceiling(cfg))
    ensures TicksDrain(s, cfg, sc)
  {
    var n := CountingDrains(s, cfg, sc, Textless(s, cfg), s.worker.failures);
  }

  // ----- too little room -----

  /** After a failing batch that does not bisect, its rows lead the next one. */
  lemma ReadyStays(s: World, cfg: Config, sc: Sidecar)
    requires Sane(s, cfg) && !s.worker.notifyOnly && AnyPoison(Ready(s, cfg), cfg, sc) && |Ready(s, cfg)| >= 2
    requires s.worker.lastIds != Ids(Ready(s, cfg)) || s.worker.streak + 1 < BISECT_AFTER
    ensures var s' := RunPass(s, cfg, HealthyPass(s, cfg, sc, Tick));
            && |Ready(s, cfg)| <= |Ready(s', cfg)| && Ready(s', cfg)[..|Ready(s, cfg)|] == Ready(s, cfg)
            && |Ready(s, cfg)| <= |PendingRows(s'.rows)| && PendingRows(s'.rows)[..|Ready(s, cfg)|] == Ready(s, cfg)
  {
    var s', ready := RunPass(s, cfg, HealthyPass(s, cfg, sc, Tick)), Ready(s, cfg);
    FailingTick(s, cfg, sc);
    FailureCounts(s.worker, cfg, Ids(ready));
    BatchIsFront(s);
    WithTextShrinks(FetchPending(s.rows, s.worker.batch), cfg);
    var batch' := FetchPending(s'.rows, s'.worker.batch);
    assert batch' == ready + batch'[|ready|..];
    WithTextAppends(ready, batch'[|ready|..], cfg);
    KeepsAll(ready, cfg);
  }

  /** A poison row in the batch, behind a good one, and too many failures counted already. */
  ghost predicate Doomed(s: World, cfg: Config, sc: Sidecar) {
    && Sane(s, cfg) && Seen(s, cfg) <= 1 && s.worker.failures + BISECT_AFTER - Seen(s, cfg) > cfg.threshold
    && AnyPoison(Ready(s, cfg), cfg, sc) && !Poison(Ready(s, cfg)[0], cfg, sc)
  }

  lemma HeadIsReady(batch: seq<Row>, cfg: Config)
    requires batch != [] && TextOf(batch[0], cfg).Some?
    ensures WithText(batch, cfg) != [] && WithText(batch, cfg)[0] == batch[0]
  {
    assert batch == [batch[0]] + batch[1..];
    WithTextAppends([batch[0]], batch[1..], cfg);
    KeepsAll([batch[0]], cfg);
  }

  lemma DoomedIsNotDone(s: World, cfg: Config, sc: Sidecar)
    requires Doomed(s, cfg, sc)
    ensures !AtPoison(s, cfg, sc) && |Ready(s, cfg)| >= 2
  {
    BatchIsFront(s);
    WithTextShrinks(FetchPending(s.rows, s.worker.batch), cfg);
    var pending, batch, ready := PendingRows(s.rows), FetchPending(s.rows, s.worker.batch), Ready(s, cfg);
    var i :| 0 <= i < |ready| && Poison(ready[i], cfg, sc);
    assert i > 0;
    if Poison(pending[0], cfg, sc) {
      HeadIsReady(batch, cfg);
    }
  }

  lemma DoomedTick(s: World, cfg: Config, sc: Sidecar)
    requires Doomed(s, cfg, sc) && !s.worker.notifyOnly
    ensures var s' := RunPass(s, cfg, HealthyPass(s, cfg, sc, Tick));
            !AtPoison(s', cfg, sc) && (s'.worker.notifyOnly || Doomed(s', cfg, sc))
  {
    var s', ready := RunPass(s, cfg, HealthyPass(s, cfg, sc, Tick)), Ready(s, cfg);
    DoomedIsNotDone(s, cfg, sc);
    FailingTick(s, cfg, sc);
    FailureCounts(s.worker, cfg, Ids(ready));
    ReadyStays(s, cfg, sc);
    TickKeepsSane(s, cfg, sc);
    assert PendingRows(s'.rows)[0] == PendingRows(s'.rows)[..|ready|][0] == ready[0];
    var i :| 0 <= i < |ready| && Poison(ready[i], cfg, sc);
    assert Ready(s', cfg)[i] == Ready(s', cfg)[..|ready|][i] && Ready(s', cfg)[0] == Ready(s', cfg)[..|ready|][0];
  }

  lemma {:induction false} DoomedNeverDrains(s: World, cfg: Config, sc: Sidecar, n: nat)
    requires !AtPoison(s, cfg, sc) && (s.worker.notifyOnly || Doomed(s, cfg, sc))
    ensures !DrainedBy(s, cfg, sc, n)
    decreases n
  {
    if n == 0 {
    } else {
      if !s.worker.notifyOnly {
        DoomedTick(s, cfg, sc);
      }
      DoomedNeverDrains(RunPass(s, cfg, HealthyPass(s, cfg, sc, Tick)), cfg, sc, n - 1);
    }
  }

  /** It takes three failures in a row to bisect a batch, so with room for fewer the worker falls
      silent first, whatever else is pending. */
  lemma TicksNeedThree(s: World, cfg: Config, sc: Sidecar)
    requires Listening(s, cfg) && Seen(s, cfg) <= 1
    requires AnyPoison(Ready(s, cfg), cfg, sc) && !Poison(Ready(s, cfg)[0], cfg, sc)
    ensures TicksDrain(s, cfg, sc) ==> cfg.threshold >= s.worker.failures + BISECT_AFTER - Seen(s, cfg)
  {
    if cfg.threshold < s.worker.failures + BISECT_AFTER - Seen(s, cfg) {
      DoomedIsNotDone(s, cfg, sc);
      forall n: nat ensures !DrainedBy(s, cfg, sc, n) {
        DoomedNeverDrains(s, cfg, sc, n);
      }
    }
  }

  /** A worker that has counted up to its threshold no longer listens. */
  predicate BelowThreshold(w: Worker, cfg: Config) {
    w.notifyOnly || w.failures == 0 || w.failures < cfg.threshold
  }

  lemma PassStaysBelow(s: World, cfg: Config, p: Pass)
    requires BelowThreshold(s.worker, cfg)
    ensures BelowThreshold(RunPass(s, cfg, p).worker, cfg)
  {
    var w := Woken(s.worker);
    if BelowThreshold(w, cfg) && !w.notifyOnly {
      BatchStaysBelow(w, cfg, s.rows, FetchPending(s.rows, w.batch), p);
    }
  }

  lemma BatchStaysBelow(w: Worker, cfg: Config, rows: seq<Row>, batch: seq<Row>, p: Pass)
    requires BelowThreshold(w, cfg)
    ensures BelowThreshold(OnBatch(w, cfg, rows, batch, p).worker, cfg)
  {
  }

  lemma {:induction false} RunStaysBelow(s: World, cfg: Config, passes: seq<Pass>)
    requires BelowThreshold(s.worker, cfg)
    ensures BelowThreshold(RunPasses(s, cfg, passes).worker, cfg)
    decreases |passes|
  {
    if passes == [] {
    } else {
      PassStaysBelow(s, cfg, passes[0]);
      RunStaysBelow(RunPass(s, cfg, passes[0]), cfg, passes[1..]);
    }
  }

  /** When every pending row has a text, the batch is its own good rows. */
  lemma AllInBatch(s: World, cfg: Config)
    requires Textless(s, cfg) == 0
    ensures Ready(s, cfg) == FetchPending(s.rows, s.worker.batch)
    ensures forall r :: r in Ready(s, cfg) ==> TextOf(r, cfg).Some?
    ensures WithoutText(FetchPending(s.rows, s.worker.batch), cfg) == []
  {
    var batch, pending := FetchPending(s.rows, s.worker.batch), PendingRows(s.rows);
    BatchIsFront(s);
    WithoutTextAppends(batch, pending[|batch|..], cfg);
    AllWithText(batch, cfg);
    WithTextShrinks(batch, cfg);
  }

  /** A batch that the tracker has seen is held, and counts from the failures before it. */
  lemma SeenCounts(s: World, cfg: Config)
    requires Listening(s, cfg) && Textless(s, cfg) == 0 && |Ready(s, cfg)| >= 2
    requires Seen(s, cfg) <= s.worker.failures
    ensures Counting(s, cfg, 0, s.worker.failures - Seen(s, cfg))
  {
    AllInBatch(s, cfg);
    BatchIsFront(s);
    if Seen(s, cfg) == 0 && s.worker.streak > 0 && Held(s, cfg) {
      HeldIsFront(s, cfg);
    }
    if Seen(s, cfg) > 0 {
      assert PendingRows(s.rows)[..|Ready(s, cfg)|] == Ready(s, cfg);
    }
  }

  /**
   When every pending row has a text, and a poison row is in the current batch but not at its
   head, ticks alone drain the rows before it exactly when the threshold is at least three more
   than the failures counted before this batch's own.
   */
  lemma TicksDrainExactlyAboveThreshold(s: World, cfg: Config, sc: Sidecar)
    requires Listening(s, cfg) && BelowThreshold(s.worker, cfg) && Seen(s, cfg) <= s.worker.failures
    requires Textless(s, cfg) == 0 && !AtPoison(s, cfg, sc) && AnyPoison(Ready(s, cfg), cfg, sc)
    ensures TicksDrain(s, cfg, sc) <==> cfg.threshold >= s.worker.failures - Seen(s, cfg) + BISECT_AFTER
  {
    AllInBatch(s, cfg);
    StuckBatchIsLong(s, cfg, sc);
    assert Ready(s, cfg)[0] == PendingRows(s.rows)[0];
    if Seen(s, cfg) <= 1 {
      TicksNeedThree(s, cfg, sc);
    }
    if cfg.threshold >= s.worker.failures - Seen(s, cfg) + BISECT_AFTER {
      SeenCounts(s, cfg);
      var n := CountingDrains(s, cfg, sc, 0, s.worker.failures - Seen(s, cfg));
    }
  }

  // ----- the worst table -----

  /**
   Behind a batch's good rows: twice as many textless rows as the batch has places left, a row
   with a text that takes one of the places, and the same again with one place less.
   */
  predicate Spiral(tail: seq<Row>, places: nat, cfg: Config)
    decreases places
  {
    places == 0 ||
    (2 * places < |tail|
     && (forall i :: 0 <= i < 2 * places ==> TextOf(tail[i], cfg).None?)
     && TextOf(tail[2 * places], cfg).Some?
     && Spiral(tail[2 * places + 1..], places - 1, cfg))
  }

  /** The same with half of the textless rows gone. */
  predicate HalfSpiral(tail: seq<Row>, places: nat, cfg: Config) {
    places == 0 ||
    (places < |tail|
     && (forall i :: 0 <= i < places ==> TextOf(tail[i], cfg).None?)
     && TextOf(tail[places], cfg).Some?
     && Spiral(tail[places + 1..], places - 1, cfg))
  }

  /** The good rows of a batch that fails: the first is not poison, another one is. */
  predicate Failing(core: seq<Row>, cfg: Config, sc: Sidecar) {
    && |core| >= 2 && (forall r :: r in core ==> TextOf(r, cfg).Some?)
    && !Poison(core[0], cfg, sc) && AnyPoison(core, cfg, sc)
  }

  /** On its way to silence; `again` when the batch with these good rows has failed once. */
  ghost predicate Spinning(s: World, cfg: Config, sc: Sidecar, core: seq<Row>, tail: seq<Row>, places: nat,
                           again: bool) {
    && Sane(s, cfg) && !s.worker.notifyOnly
    && PendingRows(s.rows) == core + tail && s.worker.batch == |core| + places
    && Failing(core, cfg, sc)
    && if again then
         && HalfSpiral(tail, places, cfg)
         && s.worker.lastIds == Ids(core) && s.worker.streak == 1
         && s.worker.failures + 2 * places + 1 >= cfg.threshold
       else
         && Spiral(tail, places, cfg)
         && s.worker.lastIds != Ids(core)
         && s.worker.failures + 2 * places + 2 >= cfg.threshold
  }

  lemma {:induction false} NoneWithText(rows: seq<Row>, cfg: Config)
    requires forall i :: 0 <= i < |rows| ==> TextOf(rows[i], cfg).None?
    ensures WithText(rows, cfg) == []
  {
    if rows == [] {
    } else {
      NoneWithText(rows[..|rows| - 1], cfg);
    }
  }

  lemma SpinningBatch(s: World, cfg: Config, sc: Sidecar, core: seq<Row>, tail: seq<Row>, places: nat, again: bool)
    requires Spinning(s, cfg, sc, core, tail, places, again)
    ensures places <= |tail|
    ensures FetchPending(s.rows, s.worker.batch) == core + tail[..places] && Ready(s, cfg) == core
  {
    var taken := tail[..places];
    assert FetchPending(s.rows, s.worker.batch) == core + taken;
    NoneWithText(taken, cfg);
    WithTextAppends(core, taken, cfg);
    KeepsAll(core, cfg);
  }

  /** One tick: the batch fails, and its textless rows go. */
  lemma SpinningRows(s: World, cfg: Config, sc: Sidecar, core: seq<Row>, tail: seq<Row>, places: nat, again: bool)
    requires Spinning(s, cfg, sc, core, tail, places, again)
    ensures places <= |tail| && AfterSpin(s, cfg, sc, core, tail[places..], again)
  {
    SpinningBatch(s, cfg, sc, core, tail, places, again);
    FailingTick(s, cfg, sc);
    FailureCounts(s.worker, cfg, Ids(core));
    TickKeepsSane(s, cfg, sc);
    assert (core + tail)[|core| + places..] == tail[places..];
  }

  ghost predicate AfterSpin(s: World, cfg: Config, sc: Sidecar, core: seq<Row>, rest: seq<Row>, again: bool) {
    var s' := RunPass(s, cfg, HealthyPass(s, cfg, sc, Tick));
    && Sane(s', cfg) && PendingRows(s'.rows) == core + rest
    && s'.worker.batch == s.worker.batch && s'.worker.lastIds == Ids(core)
    && s'.worker.failures == s.worker.failures + 1
    && (!again ==> s'.worker.streak == 1)
    && (s'.worker.notifyOnly <==> s.worker.failures + 1 >= cfg.threshold)
  }

  /** The first failure of these good rows leads to the second. */
  lemma SpinsAgain(s: World, cfg: Config, sc: Sidecar, core: seq<Row>, tail: seq<Row>, places: nat)
    requires Spinning(s, cfg, sc, core, tail, places, false)
    ensures var s' := RunPass(s, cfg, HealthyPass(s, cfg, sc, Tick));
            places <= |tail| && (s'.worker.notifyOnly || Spinning(s', cfg, sc, core, tail[places..], places, true))
  {
    SpinningRows(s, cfg, sc, core, tail, places, false);
    HalfOfSpiral(tail, places, cfg);
  }

  /** The second one silences the worker, or leaves one good row more and one place less. */
  lemma SpinsOn(s: World, cfg: Config, sc: Sidecar, core: seq<Row>, tail: seq<Row>, places: nat)
    requires Spinning(s, cfg, sc, core, tail, places, true)
    ensures var s' := RunPass(s, cfg, HealthyPass(s, cfg, sc, Tick));
            s'.worker.notifyOnly ||
            (0 < places < |tail| && Spinning(s', cfg, sc, core + [tail[places]], tail[places + 1..], places - 1, false))
  {
    SpinningRows(s, cfg, sc, core, tail, places, true);
    if s.worker.failures + 1 < cfg.threshold {
      OneMoreInCore(core, tail, places, cfg, sc);
    }
  }

  lemma OneMoreInCore(core: seq<Row>, tail: seq<Row>, places: nat, cfg: Config, sc: Sidecar)
    requires Failing(core, cfg, sc) && places < |tail| && TextOf(tail[places], cfg).Some?
    ensures Failing(core + [tail[places]], cfg, sc)
    ensures core + tail[places..] == (core + [tail[places]]) + tail[places + 1..]
    ensures Ids(core) != Ids(core + [tail[places]])
  {
    MoreFailing(core, tail[places], cfg, sc);
    assert |Ids(core)| != |Ids(core + [tail[places]])|;
  }

  lemma SpinningNotDone(s: World, cfg: Config, sc: Sidecar, core: seq<Row>, tail: seq<Row>, places: nat, again: bool)
    requires Spinning(s, cfg, sc, core, tail, places, again)
    ensures !AtPoison(s, cfg, sc)
    ensures !AtPoison(RunPass(s, cfg, HealthyPass(s, cfg, sc, Tick)), cfg, sc)
  {
    SpinningRows(s, cfg, sc, core, tail, places, again);
    assert (core + tail)[0] == core[0] && (core + tail[places..])[0] == core[0];
  }

  lemma HalfOfSpiral(tail: seq<Row>, places: nat, cfg: Config)
    requires Spiral(tail, places, cfg)
    ensures places <= |tail| && HalfSpiral(tail[places..], places, cfg)
  {
    if places > 0 {
      var half := tail[places..];
      assert half[places + 1..] == tail[2 * places + 1..];
    }
  }

  lemma MoreFailing(core: seq<Row>, r: Row, cfg: Config, sc: Sidecar)
    requires Failing(core, cfg, sc) && TextOf(r, cfg).Some?
    ensures Failing(core + [r], cfg, sc)
  {
    var i :| 0 <= i < |core| && Poison(core[i], cfg, sc);
    assert (core + [r])[i] == core[i];
  }

  /** Silent, or on its way, with a good row pending. */
  ghost predicate Lost(s: World, cfg: Config, sc: Sidecar) {
    !AtPoison(s, cfg, sc) &&
    (s.worker.notifyOnly ||
     exists core, tail, places: nat, again :: Spinning(s, cfg, sc, core, tail, places, again))
  }

  lemma SpinningTickIsLost(s: World, cfg: Config, sc: Sidecar, core: seq<Row>, tail: seq<Row>, places: nat, again: bool)
    requires Spinning(s, cfg, sc, core, tail, places, again)
    ensures Lost(RunPass(s, cfg, HealthyPass(s, cfg, sc, Tick)), cfg, sc)
  {
    SpinningNotDone(s, cfg, sc, core, tail, places, again);
    if again {
      SpinsOn(s, cfg, sc, core, tail, places);
    } else {
      SpinsAgain(s, cfg, sc, core, tail, places);
    }
  }

  lemma LostTick(s: World, cfg: Config, sc: Sidecar)
    requires Lost(s, cfg, sc)
    ensures Lost(RunPass(s, cfg, HealthyPass(s, cfg, sc, Tick)), cfg, sc)
  {
    if !s.worker.notifyOnly {
      var core, tail, places: nat, again :| Spinning(s, cfg, sc, core, tail, places, again);
      SpinningTickIsLost(s, cfg, sc, core, tail, places, again);
    }
  }

  lemma {:induction false} LostNeverDrains(s: World, cfg: Config, sc: Sidecar, n: nat)
    requires Lost(s, cfg, sc)
    ensures !DrainedBy(s, cfg, sc, n)
    decreases n
  {
    if n == 0 {
    } else {
      LostTick(s, cfg, sc);
      LostNeverDrains(RunPass(s, cfg, HealthyPass(s, cfg, sc, Tick)), cfg, sc, n - 1);
    }
  }

  // ----- such a table exists -----

  datatype Cell = Good | Bad | Blank

  function Unary(n: nat): string { seq(n, i => 'x') }

  function RowOf(i: nat, c: Cell): Row {
    Row(Unary(i), if c.Blank? then "audio" else "text", Some(if c.Bad? then "b" else "a"), Pending, None)
  }

  function Table(cells: seq<Cell>): seq<Row> {
    seq(|cells|, i requires 0 <= i < |cells| => RowOf(i, cells[i]))
  }

  function SpiralCells(places: nat): seq<Cell> {
    if places == 0 then [] else seq(2 * places, i => Blank) + [Good] + SpiralCells(places - 1)
  }

  const BAD_B := Sidecar((text: string) => text == "b", (text: string) => [])

  predicate LetsTextThrough(cfg: Config) {
    cfg.maxTokens.Some? ==> cfg.maxTokens.value > 0
  }

  lemma CellTexts(i: nat, c: Cell, cfg: Config)
    requires LetsTextThrough(cfg)
    ensures TextOf(RowOf(i, c), cfg).Some? <==> !c.Blank?
    ensures Poison(RowOf(i, c), cfg, BAD_B) <==> c.Bad?
  {
  }

  ghost predicate Shows(rows: seq<Row>, cells: seq<Cell>, cfg: Config) {
    |rows| == |cells| && forall i :: 0 <= i < |rows| ==> (TextOf(rows[i], cfg).Some? <==> !cells[i].Blank?)
  }

  lemma SpiralSplits(places: nat)
    requires places > 0
    ensures var cells := SpiralCells(places);
            && 2 * places < |cells| && (forall i :: 0 <= i < 2 * places ==> cells[i] == Blank)
            && cells[2 * places] == Good && cells[2 * places + 1..] == SpiralCells(places - 1)
  {
  }

  lemma ShowsRest(rows: seq<Row>, cells: seq<Cell>, k: nat, cfg: Config)
    requires Shows(rows, cells, cfg) && k <= |cells|
    ensures Shows(rows[k..], cells[k..], cfg)
  {
  }

  lemma {:induction false} CellsAreSpiral(rows: seq<Row>, places: nat, cfg: Config)
    requires Shows(rows, SpiralCells(places), cfg)
    ensures Spiral(rows, places, cfg)
    decreases places
  {
    if places == 0 {
    } else {
      SpiralSplits(places);
      ShowsRest(rows, SpiralCells(places), 2 * places + 1, cfg);
      CellsAreSpiral(rows[2 * places + 1..], places - 1, cfg);
    }
  }

  lemma {:induction false} AllPending(rows: seq<Row>)
    requires forall r :: r in rows ==> IsPending(r)
    ensures PendingRows(rows) == rows
  {
    if rows == [] {
    } else {
      assert rows[0] in rows && forall r :: r in rows[1..] ==> r in rows;
      AllPending(rows[1..]);
    }
  }

  lemma TableIds(cells: seq<Cell>)
    ensures UniqueIds(Table(cells)) && PendingRows(Table(cells)) == Table(cells)
  {
    var rows := Table(cells);
    forall i, j | 0 <= i < j < |rows| ensures rows[i].id != rows[j].id {
      assert |rows[i].id| == i && |rows[j].id| == j;
    }
    AllPending(rows);
  }

  predicate Sensible(cfg: Config) {
    cfg.configured >= 1 && (cfg.maxBatch.Some? ==> cfg.maxBatch.value >= 1) && LetsTextThrough(cfg)
  }

  lemma TableShows(cells: seq<Cell>, k: nat, cfg: Config)
    requires LetsTextThrough(cfg) && k <= |cells|
    ensures Shows(Table(cells)[k..], cells[k..], cfg)
  {
    forall i: nat | i < |cells| ensures TextOf(Table(cells)[i], cfg).Some? <==> !cells[i].Blank? {
      CellTexts(i, cells[i], cfg);
    }
  }

  /** A good row and a poison row lead a batch that fails. */
  lemma LeadFails(cfg: Config)
    requires LetsTextThrough(cfg)
    ensures Failing([RowOf(0, Good), RowOf(1, Bad)], cfg, BAD_B)
  {
    var core := [RowOf(0, Good), RowOf(1, Bad)];
    CellTexts(0, Good, cfg);
    CellTexts(1, Bad, cfg);
    assert Poison(core[1], cfg, BAD_B);
  }

  /** A good row, a poison row, and a spiral. */
  function WorstTable(places: nat): seq<Row> { Table([Good, Bad] + SpiralCells(places)) }

  lemma WorstTableSpins(cfg: Config)
    requires Sensible(cfg) && 2 <= Ceiling(cfg) && cfg.threshold < 2 * Ceiling(cfg) - 1
    ensures var rows := WorstTable(Ceiling(cfg) - 2);
            && UniqueIds(rows) && |rows| >= 2
            && Spinning(World(Fresh(cfg), rows), cfg, BAD_B, rows[..2], rows[2..], Ceiling(cfg) - 2, false)
  {
    var places := Ceiling(cfg) - 2;
    var cells := [Good, Bad] + SpiralCells(places);
    var rows := WorstTable(places);
    TableIds(cells);
    TableShows(cells, 2, cfg);
    assert cells[2..] == SpiralCells(places);
    CellsAreSpiral(rows[2..], places, cfg);
    LeadFails(cfg);
    assert cells[0] == Good && cells[1] == Bad && |cells| == |rows|;
    SplitAt2(rows, RowOf(0, Good), RowOf(1, Bad));
  }

  lemma SplitAt2(rows: seq<Row>, first: Row, second: Row)
    requires |rows| >= 2 && rows[0] == first && rows[1] == second
    ensures rows[..2] == [first, second] && rows == rows[..2] + rows[2..] && |Ids(rows[..2])| == 2
  {
  }

  /** It silences a fresh worker with the good row still pending. */
  lemma WorstTableNeverDrains(cfg: Config)
    requires Sensible(cfg) && 2 <= Ceiling(cfg) && cfg.threshold < 2 * Ceiling(cfg) - 1
    ensures UniqueIds(WorstTable(Ceiling(cfg) - 2))
    ensures !TicksDrain(World(Fresh(cfg), WorstTable(Ceiling(cfg) - 2)), cfg, BAD_B)
  {
    var rows := WorstTable(Ceiling(cfg) - 2);
    var s := World(Fresh(cfg), rows);
    WorstTableSpins(cfg);
    SpinningNotDone(s, cfg, BAD_B, rows[..2], rows[2..], Ceiling(cfg) - 2, false);
    assert Lost(s, cfg, BAD_B);
    forall n: nat ensures !DrainedBy(s, cfg, BAD_B, n) {
      LostNeverDrains(s, cfg, BAD_B, n);
    }
  }

  /**
   Exactly when ticks alone are enough for every table and every poison: the batches hold one
   row, or the threshold is at least twice their largest size less one.
   */
  lemma TicksDrainEveryTableExactly(cfg: Config)
    requires Sensible(cfg)
    ensures (forall rows, sc :: UniqueIds(rows) ==> TicksDrain(World(Fresh(cfg), rows), cfg, sc))
            <==> Ceiling(cfg) == 1 || cfg.threshold >= 2 * Ceiling(cfg) - 1
  {
    if Ceiling(cfg) == 1 || cfg.threshold >= 2 * Ceiling(cfg) - 1 {
      forall rows, sc | UniqueIds(rows) ensures TicksDrain(World(Fresh(cfg), rows), cfg, sc) {
        TicksDrainWithRoom(World(Fresh(cfg), rows), cfg, sc);
      }
    } else {
      WorstTableNeverDrains(cfg);
    }
  }
}
