/**
 The embedding-drain worker (src/embed_drain.rs): it fetches pending rows in table order,
 prepares their texts, embeds them as one batch and writes the vectors; a batch that keeps
 failing is halved, and a persistent outage leaves only notifications to wake it.
 */
module EmbedDrain {
  import opened Wrappers
  import EmbedText

  type Vec = seq<real>

  datatype EmbedStatus = Pending | Skipped | Failed

  /** A message row with its vector for the active model; ids are unique in the table. */
  datatype Row = Row(id: string, kind: string, body: Option<string>, status: EmbedStatus, vector: Option<Vec>)

  datatype Config =
    Config(configured: nat, maxBatch: Option<nat>, maxTokens: Option<nat>, backoffCap: nat, threshold: nat)

  /** The loop's variables and the bisection tracker's two fields. */
  datatype Worker =
    Worker(batch: nat, backoff: nat, failures: nat, notifyOnly: bool, lastIds: seq<string>, streak: nat)

  const BISECT_AFTER: nat := 3

  datatype Wake = Notified | Tick
  datatype Health = Healthy | Loading | LoadingTooLong | Unhealthy
  datatype Answer = Vectors(vecs: seq<Vec>) | EmbedError

  /** What one pass of the loop meets; `unmarked` are the ids whose mark-failed write fails. */
  datatype Pass =
    Pass(wake: Wake, health: Health, fetchOk: bool, unmarked: set<string>, answer: Answer, writeOk: bool)

  datatype World = World(worker: Worker, rows: seq<Row>)

  // ----- the table -----

  predicate IsPending(r: Row) { r.status.Pending? && r.vector.None? }

  function PendingRows(rows: seq<Row>): seq<Row> {
    if rows == [] then []
    else
      var rest := PendingRows(rows[1..]);
      if IsPending(rows[0]) then [rows[0]] + rest else rest
  }

  /** The first pending rows in table order; a batch size below 1 counts as 1. */
  function FetchPending(rows: seq<Row>, batch: nat): seq<Row> {
    var pending, n := PendingRows(rows), if batch < 1 then 1 else batch;
    if |pending| <= n then pending else pending[..n]
  }

  function SetFailed(rows: seq<Row>, id: string): seq<Row> {
    seq(|rows|, i requires 0 <= i < |rows| => if rows[i].id == id then rows[i].(status := Failed) else rows[i])
  }

  function SetVector(rows: seq<Row>, id: string, v: Vec): seq<Row> {
    seq(|rows|, i requires 0 <= i < |rows| => if rows[i].id == id then rows[i].(vector := Some(v)) else rows[i])
  }

  function TextOf(r: Row, cfg: Config): Option<string> {
    EmbedText.Prepare(r.kind, r.body, cfg.maxTokens)
  }

  /** The rows of a batch that have a text. */
  function WithText(batch: seq<Row>, cfg: Config): seq<Row> {
    if batch == [] then []
    else
      var before, last := WithText(batch[..|batch| - 1], cfg), batch[|batch| - 1];
      if TextOf(last, cfg).Some? then before + [last] else before
  }

  function Ids(rows: seq<Row>): seq<string> {
    seq(|rows|, i requires 0 <= i < |rows| => rows[i].id)
  }

  function Texts(rows: seq<Row>, cfg: Config): seq<string> {
    seq(|rows|, i requires 0 <= i < |rows| => TextOf(rows[i], cfg).GetOr(""))
  }

  /** The batch's rows without text are marked failed, one write each. */
  function MarkEmpty(rows: seq<Row>, batch: seq<Row>, cfg: Config, unmarked: set<string>): seq<Row> {
    if batch == [] then rows
    else
      var before, last := MarkEmpty(rows, batch[..|batch| - 1], cfg, unmarked), batch[|batch| - 1];
      if TextOf(last, cfg).None? && last.id !in unmarked then SetFailed(before, last.id) else before
  }

  /** Ids and vectors are paired up; the longer of the two is cut. */
  function WriteVectors(rows: seq<Row>, ids: seq<string>, vecs: seq<Vec>): seq<Row>
    decreases |ids|
  {
    if ids == [] || vecs == [] then rows
    else WriteVectors(SetVector(rows, ids[0], vecs[0]), ids[1..], vecs[1..])
  }

  // ----- the loop's decisions -----

  function Bisected(batch: nat): nat { if batch / 2 < 1 then 1 else batch / 2 }

  /** A failed pass: back off, or after too many of them wait for notifications only. */
  function NoteFailure(w: Worker, cfg: Config): Worker {
    if w.failures + 1 >= cfg.threshold then w.(failures := w.failures + 1, notifyOnly := true)
    else
      var doubled := if w.backoff * 2 < cfg.backoffCap then w.backoff * 2 else cfg.backoffCap;
      w.(failures := w.failures + 1, backoff := doubled)
  }

  function ResetTracker(w: Worker): Worker { w.(lastIds := [], streak := 0) }

  function ObserveFailure(w: Worker, ids: seq<string>): Worker {
    if w.lastIds == ids then w.(streak := w.streak + 1) else w.(lastIds := ids, streak := 1)
  }

  /** Grown back towards the configured size, within what the model advertises. */
  function Grow(w: Worker, cfg: Config): Worker {
    if w.batch < cfg.configured then
      var size := if w.batch * 2 < cfg.configured then w.batch * 2 else cfg.configured;
      if cfg.maxBatch.None? || size <= cfg.maxBatch.value then w.(batch := size) else w
    else w
  }

  function OnEmbedError(w: Worker, cfg: Config, ids: seq<string>): Worker {
    if |ids| == 1 then NoteFailure(ResetTracker(w), cfg)
    else
      var same := w.lastIds == ids;
      var seen := ObserveFailure(w, ids);
      if same && seen.streak >= BISECT_AFTER then
        ResetTracker(w.(batch := Bisected(w.batch), backoff := 1, failures := 0))
      else NoteFailure(seen, cfg)
  }

  /** The part of a pass after a batch was fetched. */
  function OnBatch(w: Worker, cfg: Config, rows: seq<Row>, batch: seq<Row>, p: Pass): World {
    var ready := WithText(batch, cfg);
    var marked := MarkEmpty(rows, batch, cfg, p.unmarked);
    if ready == [] then World(w, marked)
    else
      match p.answer
      case EmbedError => World(OnEmbedError(w, cfg, Ids(ready)), marked)
      case Vectors(vecs) =>
        var calm := ResetTracker(w.(backoff := 1, failures := 0));
        if p.writeOk then World(Grow(calm, cfg), WriteVectors(marked, Ids(ready), vecs))
        else World(NoteFailure(calm, cfg), marked)
  }

  function Woken(w: Worker): Worker {
    if w.notifyOnly then w.(backoff := 1, failures := 0, notifyOnly := false) else w
  }

  /** One pass of the loop; a tick does not wake a worker that waits for notifications only. */
  function RunPass(s: World, cfg: Config, p: Pass): World {
    var w := Woken(s.worker);
    if s.worker.notifyOnly && p.wake.Tick? then s
    else
      match p.health
      case LoadingTooLong => World(NoteFailure(w, cfg), s.rows)
      case Loading => World(w, s.rows)
      case Unhealthy => World(NoteFailure(w, cfg), s.rows)
      case Healthy =>
        if !p.fetchOk then World(NoteFailure(w, cfg), s.rows)
        else
          var batch := FetchPending(s.rows, w.batch);
          if batch == [] then World(w, s.rows) else OnBatch(w, cfg, s.rows, batch, p)
  }

  /** The worker as it starts: the batch size within what the model advertises. */
  function Fresh(cfg: Config): Worker {
    Worker(if cfg.maxBatch.Some? && cfg.configured > cfg.maxBatch.value then cfg.maxBatch.value else cfg.configured,
           1, 0, false, [], 0)
  }

  function RunPasses(s: World, cfg: Config, passes: seq<Pass>): World
    decreases |passes|
  {
    if passes == [] then s else RunPasses(RunPass(s, cfg, passes[0]), cfg, passes[1..])
  }

  // ----- the imperative worker -----

  class BisectionTracker {
    var lastIds: seq<string>
    var streak: nat

    constructor ()
      ensures lastIds == [] && streak == 0
    {
      lastIds, streak := [], 0;
    }

    /** Whether this is at least the third failure in a row of the same batch. */
    method Observe(ids: seq<string>) returns (bisect: bool)
      modifies this
      ensures var before := Worker(0, 0, 0, false, old(lastIds), old(streak));
              lastIds == ObserveFailure(before, ids).lastIds && streak == ObserveFailure(before, ids).streak
      ensures bisect <==> old(lastIds) == ids && streak >= BISECT_AFTER
    {
      if lastIds == ids {
        streak := streak + 1;
        bisect := streak >= BISECT_AFTER;
      } else {
        lastIds := ids;
        streak := 1;
        bisect := false;
      }
    }

    method Reset()
      modifies this
      ensures lastIds == [] && streak == 0
    {
      lastIds, streak := [], 0;
    }
  }

  class EmbeddingStore {
    var rows: seq<Row>

    constructor (rows: seq<Row>)
      ensures this.rows == rows
    {
      this.rows := rows;
    }

    method MarkFailed(id: string)
      modifies this
      ensures |rows| == |old(rows)|
      ensures forall i :: 0 <= i < |rows| ==>
                rows[i] == if old(rows)[i].id == id then old(rows)[i].(status := Failed) else old(rows)[i]
    {
      rows := SetFailed(rows, id);
    }

    method WriteBatch(ids: seq<string>, vecs: seq<Vec>)
      modifies this
      ensures rows == WriteVectors(old(rows), ids, vecs)
    {
      var i := 0;
      while i < |ids| && i < |vecs|
        invariant i <= |ids| && i <= |vecs|
        invariant WriteVectors(rows, ids[i..], vecs[i..]) == WriteVectors(old(rows), ids, vecs)
      {
        assert ids[i..][0] == ids[i] && ids[i..][1..] == ids[i + 1..];
        assert vecs[i..][0] == vecs[i] && vecs[i..][1..] == vecs[i + 1..];
        rows := SetVector(rows, ids[i], vecs[i]);
        i := i + 1;
      }
    }
  }

  class DrainWorker {
    const store: EmbeddingStore
    const tracker: BisectionTracker
    const cfg: Config
    var batch: nat
    var backoff: nat
    var failures: nat
    var notifyOnly: bool

    ghost function State(): World
      reads this, store, tracker
    {
      World(Worker(batch, backoff, failures, notifyOnly, tracker.lastIds, tracker.streak), store.rows)
    }

    constructor (store: EmbeddingStore, cfg: Config)
      ensures this.store == store && this.cfg == cfg && fresh(tracker)
      ensures State() == World(Fresh(cfg), store.rows)
    {
      this.store := store;
      this.cfg := cfg;
      tracker := new BisectionTracker();
      batch := if cfg.maxBatch.Some? && cfg.configured > cfg.maxBatch.value then cfg.maxBatch.value else cfg.configured;
      backoff, failures, notifyOnly := 1, 0, false;
    }

    method Fail()
      modifies this
      ensures State() == World(NoteFailure(old(State()).worker, cfg), old(State()).rows)
    {
      failures := failures + 1;
      if failures >= cfg.threshold {
        notifyOnly := true;
      } else {
        backoff := if backoff * 2 < cfg.backoffCap then backoff * 2 else cfg.backoffCap;
      }
    }

    /** Collects the batch's texts with the ids they belong to, marking the textless rows. */
    method Collect(fetched: seq<Row>, unmarked: set<string>) returns (texts: seq<string>, ids: seq<string>)
      modifies store
      ensures store.rows == MarkEmpty(old(store.rows), fetched, cfg, unmarked)
      ensures texts == Texts(WithText(fetched, cfg), cfg) && ids == Ids(WithText(fetched, cfg))
    {
      texts, ids := [], [];
      var i := 0;
      while i < |fetched|
        invariant i <= |fetched|
        invariant store.rows == MarkEmpty(old(store.rows), fetched[..i], cfg, unmarked)
        invariant texts == Texts(WithText(fetched[..i], cfg), cfg) && ids == Ids(WithText(fetched[..i], cfg))
      {
        var row := fetched[i];
        assert fetched[..i + 1][..i] == fetched[..i] && fetched[..i + 1][i] == row;
        var text := EmbedText.Prepare(row.kind, row.body, cfg.maxTokens);
        if text.Some? {
          texts := texts + [text.value];
          ids := ids + [row.id];
        } else if row.id !in unmarked {
          ghost var before := store.rows;
          store.MarkFailed(row.id);
          assert store.rows == SetFailed(before, row.id);
        }
        i := i + 1;
      }
      assert fetched[..|fetched|] == fetched;
    }

    method HandleEmbedError(ids: seq<string>)
      requires |ids| > 0
      modifies this, tracker
      ensures State() == World(OnEmbedError(old(State()).worker, cfg, ids), old(State()).rows)
    {
      if |ids| == 1 {
        tracker.Reset();
      } else {
        var bisect := tracker.Observe(ids);
        if bisect {
          batch := Bisected(batch);
          tracker.Reset();
          backoff, failures := 1, 0;
          return;
        }
      }
      Fail();
    }

    method Drain(fetched: seq<Row>, p: Pass)
      modifies this, tracker, store
      ensures State() == OnBatch(old(State()).worker, cfg, old(State()).rows, fetched, p)
    {
      var texts, ids := Collect(fetched, p.unmarked);
      if texts == [] {
        return;
      }
      if p.answer.EmbedError? {
        HandleEmbedError(ids);
        return;
      }
      tracker.Reset();
      backoff, failures := 1, 0;
      if !p.writeOk {
        Fail();
        return;
      }
      store.WriteBatch(ids, p.answer.vecs);
      if batch < cfg.configured {
        var size := if batch * 2 < cfg.configured then batch * 2 else cfg.configured;
        if cfg.maxBatch.None? || size <= cfg.maxBatch.value {
          batch := size;
        }
      }
    }

    method OnePass(p: Pass)
      modifies this, tracker, store
      ensures State() == RunPass(old(State()), cfg, p)
    {
      if notifyOnly {
        if p.wake.Tick? {
          return;
        }
        backoff, failures, notifyOnly := 1, 0, false;
      }
      match p.health {
        case LoadingTooLong => Fail();
        case Loading =>
        case Unhealthy => Fail();
        case Healthy =>
          if !p.fetchOk {
            Fail();
            return;
          }
          var fetched := FetchPending(store.rows, batch);
          if fetched != [] {
            Drain(fetched, p);
          }
      }
    }
  }
}
