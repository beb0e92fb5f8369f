/**
 Bisection makes progress. When the embedder fails exactly the batches that contain a poison
 text, finitely many healthy passes leave no pending row before the first poison row.
 */
module EmbedDrainProgress {
  import opened Wrappers
  import opened EmbedDrain
  import opened EmbedDrainSafety

  /** The fixed surroundings: the texts that fail a batch, and the vectors of the others. */
  datatype Sidecar = Sidecar(bad: string -> bool, embed: string -> Vec)

  predicate Poison(r: Row, cfg: Config, sc: Sidecar) {
    TextOf(r, cfg).Some? && sc.bad(TextOf(r, cfg).value)
  }

  predicate AnyPoison(rows: seq<Row>, cfg: Config, sc: Sidecar) {
    exists i :: 0 <= i < |rows| && Poison(rows[i], cfg, sc)
  }

  /** The rows a pass would embed now. */
  function Ready(s: World, cfg: Config): seq<Row> {
    WithText(FetchPending(s.rows, s.worker.batch), cfg)
  }

  function AnswerFor(ready: seq<Row>, cfg: Config, sc: Sidecar): Answer {
    if AnyPoison(ready, cfg, sc) then EmbedError
    else Vectors(seq(|ready|, i requires 0 <= i < |ready| => sc.embed(TextOf(ready[i], cfg).GetOr(""))))
  }

  /** A pass on which everything but the poison works. */
  function HealthyPass(s: World, cfg: Config, sc: Sidecar, wake: Wake): Pass {
    Pass(wake, Healthy, true, {}, AnswerFor(Ready(s, cfg), cfg, sc), true)
  }

  function HealthyRun(s: World, cfg: Config, sc: Sidecar, wake: Wake, n: nat): World
    decreases n
  {
    if n == 0 then s else HealthyRun(RunPass(s, cfg, HealthyPass(s, cfg, sc, wake)), cfg, sc, wake, n - 1)
  }

  /** Nothing is pending, or the first pending row is poison. */
  predicate AtPoison(s: World, cfg: Config, sc: Sidecar) {
    var pending := PendingRows(s.rows);
    pending == [] || Poison(pending[0], cfg, sc)
  }

  /** Failures left before the current batch would be halved. */
  function FailuresLeft(s: World, cfg: Config): int {
    if s.worker.lastIds == Ids(Ready(s, cfg)) then BISECT_AFTER - s.worker.streak else BISECT_AFTER
  }

  /** Lexicographic: pending rows, batch size, failures left. */
  function Measure(s: World, cfg: Config): int {
    |PendingRows(s.rows)| * (3 * Ceiling(cfg) + 4) + 3 * s.worker.batch + FailuresLeft(s, cfg)
  }

  ghost predicate Sane(s: World, cfg: Config) {
    UniqueIds(s.rows) && InBounds(s.worker, cfg) && s.worker.streak < BISECT_AFTER
  }

  // ----- how the pending rows change -----

  function Without(rows: seq<Row>, ids: seq<string>): seq<Row> {
    if rows == [] then []
    else
      var rest := Without(rows[1..], ids);
      if rows[0].id in ids then rest else [rows[0]] + rest
  }

  lemma {:induction false} WithoutLength(rows: seq<Row>, ids: seq<string>)
    ensures |Without(rows, ids)| <= |rows|
    ensures (exists i :: 0 <= i < |rows| && rows[i].id in ids) ==> |Without(rows, ids)| < |rows|
  {
    if rows == [] {
    } else {
      WithoutLength(rows[1..], ids);
      if i :| 0 <= i < |rows| && rows[i].id in ids {
        assert i > 0 ==> rows[1..][i - 1] == rows[i];
      }
    }
  }

  /** When exactly the rows with these ids leave `pending`, and no other row changes, the pending
      rows are the old ones without them. */
  lemma {:induction false} PendingWithout(rows: seq<Row>, rows': seq<Row>, ids: seq<string>)
    requires |rows'| == |rows|
    requires forall i :: 0 <= i < |rows| && rows[i].id !in ids ==> rows'[i] == rows[i]
    requires forall i :: 0 <= i < |rows| && rows[i].id in ids && IsPending(rows[i]) ==> !IsPending(rows'[i])
    requires forall i :: 0 <= i < |rows| && !IsPending(rows[i]) ==> !IsPending(rows'[i])
    ensures PendingRows(rows') == Without(PendingRows(rows), ids)
  {
    if rows == [] {
    } else {
      forall i | 0 <= i < |rows[1..]| ensures rows[1..][i] == rows[i + 1] && rows'[1..][i] == rows'[i + 1] {
      }
      PendingWithout(rows[1..], rows'[1..], ids);
    }
  }

  /** The ids that leave `pending` on a healthy pass over `batch`. */
  function Leaving(batch: seq<Row>, cfg: Config, sc: Sidecar): seq<string> {
    if AnyPoison(WithText(batch, cfg), cfg, sc) then Ids(WithoutText(batch, cfg)) else Ids(batch)
  }

  function WithoutText(batch: seq<Row>, cfg: Config): seq<Row> {
    if batch == [] then []
    else
      var rest := WithoutText(batch[1..], cfg);
      if TextOf(batch[0], cfg).None? then [batch[0]] + rest else rest
  }

  lemma {:induction false} WithoutTextAre(batch: seq<Row>, cfg: Config)
    ensures forall r :: r in WithoutText(batch, cfg) <==> r in batch && TextOf(r, cfg).None?
  {
    if batch == [] {
    } else {
      WithoutTextAre(batch[1..], cfg);
      assert forall r :: r in batch <==> r == batch[0] || r in batch[1..];
    }
  }

  lemma IdsAre(rows: seq<Row>)
    ensures forall id :: id in Ids(rows) <==> exists r :: r in rows && r.id == id
  {
    forall id | exists r :: r in rows && r.id == id ensures id in Ids(rows) {
      var r :| r in rows && r.id == id;
      var k :| 0 <= k < |rows| && rows[k] == r;
      assert Ids(rows)[k] == id;
    }
    forall id | id in Ids(rows) ensures exists r :: r in rows && r.id == id {
      var k :| 0 <= k < |rows| && Ids(rows)[k] == id;
      assert rows[k] in rows;
    }
  }

  /** The rows after a healthy pass over `batch`. */
  function RowsAfter(rows: seq<Row>, batch: seq<Row>, cfg: Config, sc: Sidecar): seq<Row> {
    var ready, marked := WithText(batch, cfg), MarkEmpty(rows, batch, cfg, {});
    match AnswerFor(ready, cfg, sc)
    case EmbedError => marked
    case Vectors(vecs) => WriteVectors(marked, Ids(ready), vecs)
  }

  /** A failing batch loses its textless rows. */
  lemma FailedBatchLeaves(rows: seq<Row>, batch: seq<Row>, cfg: Config)
    requires UniqueIds(rows) && BatchOf(batch, rows)
    ensures PendingRows(MarkEmpty(rows, batch, cfg, {})) == Without(PendingRows(rows), Ids(WithoutText(batch, cfg)))
  {
    var marked, ids := MarkEmpty(rows, batch, cfg, {}), Ids(WithoutText(batch, cfg));
    MarkedRows(rows, batch, cfg, {});
    WithoutTextAre(batch, cfg);
    IdsAre(WithoutText(batch, cfg));
    PendingWithout(rows, marked, ids);
  }

  /** A batch that embeds leaves as a whole. */
  lemma EmbeddedBatchLeaves(rows: seq<Row>, batch: seq<Row>, cfg: Config, vecs: seq<Vec>)
    requires UniqueIds(rows) && BatchOf(batch, rows) && |vecs| == |WithText(batch, cfg)|
    ensures PendingRows(WriteVectors(MarkEmpty(rows, batch, cfg, {}), Ids(WithText(batch, cfg)), vecs))
         == Without(PendingRows(rows), Ids(batch))
  {
    var ready, marked := WithText(batch, cfg), MarkEmpty(rows, batch, cfg, {});
    var ids := Ids(ready);
    var written := WriteVectors(marked, ids, vecs);
    MarkedRows(rows, batch, cfg, {});
    WithTextAre(batch, cfg);
    IdsAre(batch);
    IdsAre(ready);
    forall i, j | 0 <= i < j < |ids| ensures ids[i] != ids[j] {
      assert ready[i].id != ready[j].id;
    }
    WrittenRows(marked, ids, vecs);
    forall i | 0 <= i < |rows|
      ensures rows[i].id !in Ids(batch) ==> written[i] == rows[i]
      ensures rows[i].id in Ids(batch) || !IsPending(rows[i]) ==> !IsPending(written[i])
    {
      assert marked[i].id == rows[i].id;
      if rows[i].id in ids {
        var k :| 0 <= k < |ids| && ids[k] == rows[i].id;
        assert written[i] == marked[i].(vector := Some(vecs[k]));
        assert ready[k] in ready;
      } else {
        assert written[i] == marked[i];
        if rows[i].id in Ids(batch) {
          var r :| r in batch && r.id == rows[i].id;
          assert r !in ready;
        }
      }
    }
    PendingWithout(rows, written, Ids(batch));
  }

  lemma HealthyPassLeaves(rows: seq<Row>, batch: seq<Row>, cfg: Config, sc: Sidecar)
    requires UniqueIds(rows) && BatchOf(batch, rows)
    ensures PendingRows(RowsAfter(rows, batch, cfg, sc)) == Without(PendingRows(rows), Leaving(batch, cfg, sc))
  {
    var answer := AnswerFor(WithText(batch, cfg), cfg, sc);
    if answer.EmbedError? {
      FailedBatchLeaves(rows, batch, cfg);
    } else {
      EmbeddedBatchLeaves(rows, batch, cfg, answer.vecs);
    }
  }

  // ----- the measure -----

  lemma {:induction false} AllWithText(batch: seq<Row>, cfg: Config)
    ensures WithoutText(batch, cfg) == [] ==> WithText(batch, cfg) == batch
  {
    WithoutTextAre(batch, cfg);
    if WithoutText(batch, cfg) == [] {
      KeepsAll(batch, cfg);
    }
  }

  lemma {:induction false} KeepsAll(batch: seq<Row>, cfg: Config)
    requires forall r :: r in batch ==> TextOf(r, cfg).Some?
    ensures WithText(batch, cfg) == batch
  {
    if batch == [] {
    } else {
      var front := batch[..|batch| - 1];
      assert forall r :: r in front ==> r in batch;
      KeepsAll(front, cfg);
      assert batch == front + [batch[|batch| - 1]];
    }
  }

  /** A healthy pass that lets any row of its batch leave has fewer pending rows after it. */
  lemma SomeLeave(rows: seq<Row>, n: nat, cfg: Config, sc: Sidecar)
    requires UniqueIds(rows)
    requires var batch := FetchPending(rows, n);
             batch != [] && (AnyPoison(WithText(batch, cfg), cfg, sc) ==> WithoutText(batch, cfg) != [])
    ensures |PendingRows(RowsAfter(rows, FetchPending(rows, n), cfg, sc))| < |PendingRows(rows)|
  {
    var batch, pending := FetchPending(rows, n), PendingRows(rows);
    FetchedBatch(rows, n);
    HealthyPassLeaves(rows, batch, cfg, sc);
    WithoutTextAre(batch, cfg);
    var gone := if AnyPoison(WithText(batch, cfg), cfg, sc) then WithoutText(batch, cfg) else batch;
    assert gone[0] in gone && gone[0] in batch;
    assert Leaving(batch, cfg, sc)[0] == gone[0].id;
    var k :| 0 <= k < |batch| && batch[k] == gone[0];
    assert pending[k] == batch[k];
    WithoutLength(pending, Leaving(batch, cfg, sc));
  }

  lemma FewerTimes(a: nat, b: nat, k: nat)
    requires a < b
    ensures a * k + k <= b * k
  {
    var d := b - a - 1;
    assert b * k == a * k + k + d * k;
  }

  /** A batch that fails with nothing to mark leaves the table alone, and moves the tracker on. */
  lemma StuckBatchMovesOn(s: World, cfg: Config, sc: Sidecar)
    requires Sane(s, cfg) && !AtPoison(s, cfg, sc)
    requires AnyPoison(Ready(s, cfg), cfg, sc) && WithoutText(FetchPending(s.rows, s.worker.batch), cfg) == []
    ensures var s' := RunPass(s, cfg, HealthyPass(s, cfg, sc, Notified));
            && s'.rows == s.rows && |Ready(s, cfg)| >= 2
            && s'.worker.streak < BISECT_AFTER
            && (if s.worker.lastIds == Ids(Ready(s, cfg)) && s.worker.streak + 1 >= BISECT_AFTER
                then s'.worker.batch == s.worker.batch / 2 && s.worker.batch >= 2
                else s'.worker.batch == s.worker.batch && s'.worker.lastIds == Ids(Ready(s, cfg))
                     && s'.worker.streak == if s.worker.lastIds == Ids(Ready(s, cfg)) then s.worker.streak + 1 else 1)
  {
    var batch := FetchPending(s.rows, s.worker.batch);
    NothingToMark(s.rows, batch, cfg);
    StuckBatchIsLong(s, cfg, sc);
    FailureMovesOn(s.worker, cfg, Ids(batch));
    assert Ready(s, cfg) == batch;
  }

  lemma NothingToMark(rows: seq<Row>, batch: seq<Row>, cfg: Config)
    requires WithoutText(batch, cfg) == []
    ensures WithText(batch, cfg) == batch && MarkEmpty(rows, batch, cfg, {}) == rows
  {
    AllWithText(batch, cfg);
    MarkedRows(rows, batch, cfg, {});
    WithoutTextAre(batch, cfg);
  }

  lemma StuckBatchIsLong(s: World, cfg: Config, sc: Sidecar)
    requires !AtPoison(s, cfg, sc) && AnyPoison(FetchPending(s.rows, s.worker.batch), cfg, sc)
    ensures |FetchPending(s.rows, s.worker.batch)| >= 2
  {
    var batch := FetchPending(s.rows, s.worker.batch);
    var i :| 0 <= i < |batch| && Poison(batch[i], cfg, sc);
    assert batch[0] == PendingRows(s.rows)[0];
    assert i != 0;
  }

  lemma FailureMovesOn(w: Worker, cfg: Config, ids: seq<string>)
    requires |ids| >= 2 && w.streak < BISECT_AFTER
    ensures var w' := OnEmbedError(w, cfg, ids);
            && w'.streak < BISECT_AFTER
            && (if w.lastIds == ids && w.streak + 1 >= BISECT_AFTER then w'.batch == Bisected(w.batch)
                else w'.batch == w.batch && w'.lastIds == ids
                     && w'.streak == if w.lastIds == ids then w.streak + 1 else 1)
  {
  }

  lemma StuckMeasure(s: World, cfg: Config, sc: Sidecar)
    requires Sane(s, cfg) && !AtPoison(s, cfg, sc)
    requires AnyPoison(Ready(s, cfg), cfg, sc) && WithoutText(FetchPending(s.rows, s.worker.batch), cfg) == []
    ensures var s' := RunPass(s, cfg, HealthyPass(s, cfg, sc, Notified)); Measure(s', cfg) < Measure(s, cfg)
  {
    var s' := RunPass(s, cfg, HealthyPass(s, cfg, sc, Notified));
    StuckBatchMovesOn(s, cfg, sc);
    if s'.worker.batch == s.worker.batch {
      assert Ready(s', cfg) == Ready(s, cfg);
    }
  }

  /** A pass that lets a row leave lowers the measure, whatever it does to the batch size. */
  lemma LeavingMeasure(s: World, cfg: Config, sc: Sidecar)
    requires Sane(s, cfg) && !AtPoison(s, cfg, sc)
    requires AnyPoison(Ready(s, cfg), cfg, sc) ==> WithoutText(FetchPending(s.rows, s.worker.batch), cfg) != []
    ensures var s' := RunPass(s, cfg, HealthyPass(s, cfg, sc, Notified)); Measure(s', cfg) < Measure(s, cfg)
  {
    var p := HealthyPass(s, cfg, sc, Notified);
    var s' := RunPass(s, cfg, p);
    assert FetchPending(s.rows, s.worker.batch)[0] == PendingRows(s.rows)[0];
    SomeLeave(s.rows, s.worker.batch, cfg, sc);
    PassRows(s, cfg, sc);
    PassKeepsBounds(s, cfg, p);
    FewerTimes(|PendingRows(s'.rows)|, |PendingRows(s.rows)|, 3 * Ceiling(cfg) + 4);
  }

  lemma PassKeepsSane(s: World, cfg: Config, sc: Sidecar)
    requires Sane(s, cfg)
    ensures Sane(RunPass(s, cfg, HealthyPass(s, cfg, sc, Notified)), cfg)
  {
    var p := HealthyPass(s, cfg, sc, Notified);
    var s' := RunPass(s, cfg, p);
    PassKeepsBounds(s, cfg, p);
    HonestHealthyPass(s, cfg, sc, Notified);
    PassAdvances(s, cfg, p, sc.embed);
    AdvancesKeepsIds(s.rows, s'.rows, cfg, sc.embed);
    StreakStaysLow(s, cfg, sc);
  }

  lemma MeasurePositive(s: World, cfg: Config)
    requires Sane(s, cfg)
    ensures Measure(s, cfg) > 0
  {
    FewerTimes(0, |PendingRows(s.rows)| + 1, 3 * Ceiling(cfg) + 4);
  }

  /** While a row before the poison is pending, every healthy pass lowers the measure. */
  lemma HealthyPassProgresses(s: World, cfg: Config, sc: Sidecar)
    requires Sane(s, cfg) && !AtPoison(s, cfg, sc)
    ensures var s' := RunPass(s, cfg, HealthyPass(s, cfg, sc, Notified));
            Sane(s', cfg) && 0 < Measure(s', cfg) < Measure(s, cfg)
  {
    PassKeepsSane(s, cfg, sc);
    MeasurePositive(RunPass(s, cfg, HealthyPass(s, cfg, sc, Notified)), cfg);
    if AnyPoison(Ready(s, cfg), cfg, sc) && WithoutText(FetchPending(s.rows, s.worker.batch), cfg) == [] {
      StuckMeasure(s, cfg, sc);
    } else {
      LeavingMeasure(s, cfg, sc);
    }
  }

  /** The rows of a healthy pass are those of its batch's answer. */
  lemma PassRows(s: World, cfg: Config, sc: Sidecar)
    requires FetchPending(s.rows, s.worker.batch) != []
    ensures RunPass(s, cfg, HealthyPass(s, cfg, sc, Notified)).rows
         == RowsAfter(s.rows, FetchPending(s.rows, s.worker.batch), cfg, sc)
  {
  }

  lemma StreakStaysLow(s: World, cfg: Config, sc: Sidecar)
    requires s.worker.streak < BISECT_AFTER
    ensures RunPass(s, cfg, HealthyPass(s, cfg, sc, Notified)).worker.streak < BISECT_AFTER
  {
  }

  lemma HonestHealthyPass(s: World, cfg: Config, sc: Sidecar, wake: Wake)
    ensures HonestEmbedder(HealthyPass(s, cfg, sc, wake), PassTexts(s, cfg), sc.embed)
  {
  }

  /**
   Finitely many healthy passes, at most the starting measure of them, leave no pending row
   before the first poison row.
   */
  lemma {:induction false} ReachesPoison(s: World, cfg: Config, sc: Sidecar) returns (n: nat)
    requires Sane(s, cfg)
    ensures n <= Measure(s, cfg) && AtPoison(HealthyRun(s, cfg, sc, Notified, n), cfg, sc)
    decreases Measure(s, cfg)
  {
    n := 0;
    MeasurePositive(s, cfg);
    if AtPoison(s, cfg, sc) {
    } else {
      HealthyPassProgresses(s, cfg, sc);
      n := ReachesPoison(RunPass(s, cfg, HealthyPass(s, cfg, sc, Notified)), cfg, sc);
      n := n + 1;
    }
  }

  lemma {:induction false} HealthyRunAdvances(s: World, cfg: Config, sc: Sidecar, wake: Wake, n: nat)
    requires UniqueIds(s.rows)
    ensures Advances(s.rows, HealthyRun(s, cfg, sc, wake, n).rows, cfg, sc.embed)
    decreases n
  {
    if n == 0 {
    } else {
      var p := HealthyPass(s, cfg, sc, wake);
      var next := RunPass(s, cfg, p);
      HonestHealthyPass(s, cfg, sc, wake);
      PassAdvances(s, cfg, p, sc.embed);
      AdvancesKeepsIds(s.rows, next.rows, cfg, sc.embed);
      HealthyRunAdvances(next, cfg, sc, wake, n - 1);
      AdvancesTransitive(s.rows, next.rows, HealthyRun(s, cfg, sc, wake, n).rows, cfg, sc.embed);
    }
  }

  lemma {:induction false} FirstPending(rows: seq<Row>, i: nat) returns (k: nat)
    requires i < |rows| && IsPending(rows[i])
    ensures k <= i && IsPending(rows[k]) && PendingRows(rows) != [] && PendingRows(rows)[0] == rows[k]
  {
    if IsPending(rows[0]) {
      k := 0;
    } else {
      k := FirstPending(rows[1..], i - 1);
      k := k + 1;
    }
  }

  /** No pending row up to here is poison. */
  ghost predicate CleanUpTo(rows: seq<Row>, i: nat, cfg: Config, sc: Sidecar)
    requires i < |rows|
  {
    forall k :: 0 <= k <= i && IsPending(rows[k]) ==> !Poison(rows[k], cfg, sc)
  }

  /**
   After finitely many healthy passes every pending row before the first poison row has been
   retired: it holds its own text's vector, or is failed because it has no text.
   */
  lemma RowsBeforePoisonDrain(s: World, cfg: Config, sc: Sidecar) returns (n: nat)
    requires Sane(s, cfg)
    ensures n <= Measure(s, cfg)
    ensures var after := HealthyRun(s, cfg, sc, Notified, n).rows;
            |after| == |s.rows| &&
            forall i :: 0 <= i < |s.rows| && IsPending(s.rows[i]) && CleanUpTo(s.rows, i, cfg, sc) ==>
              after[i] == if TextOf(s.rows[i], cfg).None? then s.rows[i].(status := Failed)
                          else s.rows[i].(vector := Some(sc.embed(TextOf(s.rows[i], cfg).value)))
  {
    n := ReachesPoison(s, cfg, sc);
    HealthyRunAdvances(s, cfg, sc, Notified, n);
    var end := HealthyRun(s, cfg, sc, Notified, n);
    forall i | 0 <= i < |s.rows| && IsPending(s.rows[i]) && CleanUpTo(s.rows, i, cfg, sc)
      ensures !IsPending(end.rows[i])
    {
      if IsPending(end.rows[i]) {
        var k := FirstPending(end.rows, i);
        assert false;
      }
    }
    forall i | 0 <= i < |s.rows| && IsPending(s.rows[i]) && CleanUpTo(s.rows, i, cfg, sc)
      ensures end.rows[i] == if TextOf(s.rows[i], cfg).None? then s.rows[i].(status := Failed)
                             else s.rows[i].(vector := Some(sc.embed(TextOf(s.rows[i], cfg).value)))
    {
      assert RowAdvances(s.rows[i], end.rows[i], cfg, sc.embed);
    }
  }
}
