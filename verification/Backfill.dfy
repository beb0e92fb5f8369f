/**
 The backfill worker (src/backfill.rs): one job pages a chat's history backwards, and the
 worker loop claims jobs, runs them and records how they ended.

 What the surroundings answer during one turn of the paging loop is a `Round`; a job's run is
 a sequence of rounds, and a run that outlives its rounds was killed at the top of the loop.
 */
module Backfill {
  import opened Wrappers
  import opened History
  import opened BackfillStore

  datatype FetchTarget = Since(tsMs: i64) | All | Count(n: u32)

  function ParseTarget(kind: string, value: Option<i64>): Option<FetchTarget> {
    if kind == "since" then (match value case Some(ts) => Some(Since(ts)) case None => None)
    else if kind == "all" then Some(All)
    else if kind == "count" then
      (match value
       case Some(n) => if 0 <= n <= U32_MAX then Some(Count(n)) else None
       case None => None)
    else None
  }

  datatype Step = Continue | StepDone | StepParked

  /** The stop decision after a batch; a `backstop` of 0 never parks. */
  function EvaluateTarget(target: FetchTarget, fetched: u32, oldestTs: Option<i64>, moreRemain: bool,
                          backstop: u32): Step {
    match target
    case Since(ts) =>
      if !moreRemain || (oldestTs.Some? && oldestTs.value <= ts) then StepDone
      else if backstop > 0 && fetched >= backstop then StepParked
      else Continue
    case All =>
      if !moreRemain then StepDone
      else if backstop > 0 && fetched >= backstop then StepParked
      else Continue
    case Count(n) => if fetched >= n then StepDone else Continue
  }

  datatype FailReason =
    InvalidBatchSize | BadTarget | StoreUnreadable | NoAnchor | FetchFailed | PersistFailed | AnchorStuck

  datatype JobEnd = Done | Parked | Stopped | FailedWith(reason: FailReason) | Deferred

  /** How a run of a job ended; `Killed` when the process went away under it. */
  datatype Outcome = Ended(end: JobEnd) | Killed

  /** What became of a write: done, refused, or the process went away before it. */
  datatype Fate = Ok | Refused | Crash

  datatype Answer = Page(batch: HistoryBatch) | FetchError(stillReady: bool)

  /**
   One turn's answers. `kept` is what the sink inserted, whatever it then reported in `persist`;
   `save` is the fate of the progress or cancel write, `stamp` that of the write on completion.
   */
  datatype Round =
    Round(cancelled: bool, ready: bool, answer: Answer, kept: seq<MessageRow>,
          persist: Fate, save: Fate, stamp: Fate, cancelledInPace: bool, now: int)

  datatype Config = Config(batchSize: i32, backstop: u32)

  /** What a turn does not change: the job, its chat and target, and the settings. */
  datatype Task = Task(job: nat, chat: string, target: FetchTarget, backstop: u32)

  /** The paging loop's local variables. */
  datatype Paging = Paging(anchor: Anchor, fetched: u32, lastId: string, repeats: nat)

  const STUCK_K: nat := 2

  function CursorAnchor(c: Cursor): Option<Anchor> {
    if c.id.Some? && c.id.value != "" && c.tsMs.Some? then
      Some(Anchor(c.id.value, c.fromMe.GetOr(false), c.tsMs.value))
    else None
  }

  function StoredAnchor(row: MessageRow): Anchor {
    Anchor(row.id, row.fromMe, SaturatingMul1000(row.tsSecs))
  }

  datatype Resolution = FromCursor(anchor: Anchor) | OldestStored(anchor: Anchor) | Unanchored

  /** Where a fetch starts: the cursor's anchor, else the oldest stored message. */
  function ResolveAnchor(db: Db, chat: string): Resolution {
    var c := GetCursor(db, chat);
    if c.Some? && CursorAnchor(c.value).Some? then FromCursor(CursorAnchor(c.value).value)
    else
      match OldestRow(db.rows, chat)
      case Some(row) => OldestStored(StoredAnchor(row))
      case None => Unanchored
  }

  datatype Opening = Finish(end: JobEnd) | Open(task: Task, paging: Paging)

  /** Whether the two reads before the loop go through. */
  datatype Lookups = Lookups(cursorOk: bool, oldestOk: bool)

  const READABLE := Lookups(true, true)

  /** What `process_job` does before its loop. */
  function BeginReading(db: Db, job: nat, cfg: Config, lookups: Lookups): Opening
    requires job < |db.jobs|
  {
    var row := db.jobs[job];
    var target := ParseTarget(row.targetKind, row.targetValue);
    var c := GetCursor(db, row.chat);
    if cfg.batchSize <= 0 then Finish(FailedWith(InvalidBatchSize))
    else if target.None? then Finish(FailedWith(BadTarget))
    else if !lookups.cursorOk then Finish(FailedWith(StoreUnreadable))
    else if c.Some? && c.value.exhausted then Finish(Done)
    else
      var r := ResolveAnchor(db, row.chat);
      if !r.FromCursor? && !lookups.oldestOk then Finish(FailedWith(StoreUnreadable))
      else if r.Unanchored? then Finish(FailedWith(NoAnchor))
      else Open(Task(job, row.chat, target.value, cfg.backstop),
                Paging(r.anchor, AsU32(if row.fetched < 0 then 0 else row.fetched), r.anchor.id, 0))
  }

  function Begin(db: Db, job: nat, cfg: Config): Opening
    requires job < |db.jobs|
  {
    BeginReading(db, job, cfg, READABLE)
  }

  datatype Turned = Next(paging: Paging, db: Db) | Stop(outcome: Outcome, db: Db)

  /** The cursor write of a completed run; the process may go away before it. */
  function Complete(db: Db, chat: string, a: Anchor, moreRemain: bool, r: Round): Turned {
    match r.stamp
    case Ok => Stop(Ended(Done), Upserted(db, chat, a, moreRemain, !moreRemain, Some(r.now)))
    case Refused => Stop(Ended(Done), db)
    case Crash => Stop(Killed, db)
  }

  /** A turn once its progress is recorded: evaluate the target. */
  function Decide(t: Task, p: Paging, db: Db, moreRemain: bool, r: Round): Turned {
    match EvaluateTarget(t.target, p.fetched, Some(p.anchor.tsMs), moreRemain, t.backstop)
    case StepDone => Complete(db, t.chat, p.anchor, moreRemain, r)
    case StepParked => Stop(Ended(Parked), db)
    case Continue => if r.cancelledInPace then Stop(Ended(Stopped), db) else Next(p, db)
  }

  /** A turn that has a next anchor: guard, record it, decide. */
  function Move(t: Task, p: Paging, db: Db, oldest: Anchor, batch: HistoryBatch, r: Round): Turned {
    var fetched := SaturatingAdd(p.fetched, AsU32(|batch.messages|));
    var repeats := if oldest.id == p.lastId then p.repeats + 1 else 0;
    if repeats >= STUCK_K then Stop(Ended(FailedWith(AnchorStuck)), db)
    else
      var next := Paging(oldest, fetched, oldest.id, repeats);
      var exhausted := |batch.messages| == 0 || !batch.moreRemain;
      match r.save
      case Crash => Stop(Killed, db)
      case Refused => Decide(t, next, db, batch.moreRemain, r)
      case Ok =>
        Decide(t, next, Recorded(db, t.job, t.chat, oldest, batch.moreRemain, exhausted, fetched), batch.moreRemain, r)
  }

  /** A turn once its batch is stored: without a next anchor the history is exhausted. */
  function Advance(t: Task, p: Paging, db: Db, batch: HistoryBatch, r: Round): Turned {
    match OldestAnchor(batch.messages)
    case None => Complete(db, t.chat, p.anchor, false, r)
    case Some(oldest) => Move(t, p, db, oldest, batch, r)
  }

  /** One turn of the paging loop. */
  function Turn(t: Task, p: Paging, db: Db, r: Round): Turned {
    if r.cancelled then
      match r.save
      case Ok => Stop(Ended(Stopped), Upserted(db, t.chat, p.anchor, true, false, None))
      case Refused => Stop(Ended(Stopped), db)
      case Crash => Stop(Killed, db)
    else if !r.ready then Stop(Ended(Deferred), db)
    else
      match r.answer
      case FetchError(stillReady) => Stop(Ended(if stillReady then FailedWith(FetchFailed) else Deferred), db)
      case Page(batch) =>
        var stored := db.(rows := InsertAll(db.rows, r.kept));
        match r.persist
        case Ok => Advance(t, p, stored, batch, r)
        case Refused => Stop(Ended(FailedWith(PersistFailed)), stored)
        case Crash => Stop(Killed, stored)
  }

  /** How a run ended, and the tables it left. */
  datatype Run = Run(outcome: Outcome, db: Db)

  /** The paging loop over a sequence of rounds. */
  function Pages(t: Task, p: Paging, db: Db, rounds: seq<Round>): Run
    decreases |rounds|
  {
    if rounds == [] then Run(Killed, db)
    else
      match Turn(t, p, db, rounds[0])
      case Next(p', db') => Pages(t, p', db', rounds[1..])
      case Stop(outcome, db') => Run(outcome, db')
  }

  /** A whole run of `process_job`. */
  function Process(db: Db, job: nat, cfg: Config, rounds: seq<Round>): Run
    requires job < |db.jobs|
  {
    match Begin(db, job, cfg)
    case Finish(end) => Run(Ended(end), db)
    case Open(t, p) => Pages(t, p, db, rounds)
  }

  /** A run that may fail to read the store first. */
  function ProcessReading(db: Db, job: nat, cfg: Config, lookups: Lookups, rounds: seq<Round>): Run
    requires job < |db.jobs|
  {
    match BeginReading(db, job, cfg, lookups)
    case Finish(end) => Run(Ended(end), db)
    case Open(t, p) => Pages(t, p, db, rounds)
  }

  /** A read error either does not matter, or fails the job and leaves the tables alone. */
  lemma ReadErrorIsHarmless(db: Db, job: nat, cfg: Config, lookups: Lookups, rounds: seq<Round>)
    requires job < |db.jobs|
    ensures var run := ProcessReading(db, job, cfg, lookups, rounds);
            run == Process(db, job, cfg, rounds) || run == Run(Ended(FailedWith(StoreUnreadable)), db)
  {
  }

  /** The job status a finished run leaves: a stop or a deferral requeues the job. */
  function StatusFor(end: JobEnd): Status {
    match end
    case Done => Finished
    case Parked => Paused
    case Stopped => Queued
    case Deferred => Queued
    case FailedWith(_) => Failed
  }

  /** The completion write of a run, and how the run then ends. */
  method StampAndFinish(store: Store, t: Task, anchor: Anchor, moreRemain: bool, r: Round) returns (outcome: Outcome)
    modifies store
    ensures Complete(old(store.Tables()), t.chat, anchor, moreRemain, r) == Stop(outcome, store.Tables())
  {
    if r.stamp.Crash? {
      return Killed;
    }
    if r.stamp.Ok? {
      store.UpsertCursor(t.chat, anchor, moreRemain, !moreRemain, Some(r.now));
    }
    outcome := Ended(Done);
  }

  /** The rest of a turn after its batch was stored; `None` goes round again. */
  method AdvanceJob(store: Store, t: Task, p: Paging, batch: HistoryBatch, r: Round)
    returns (next: Paging, outcome: Option<Outcome>)
    modifies store
    ensures Advance(t, p, old(store.Tables()), batch, r)
         == if outcome.Some? then Stop(outcome.value, store.Tables()) else Next(next, store.Tables())
  {
    var anchor, lastId, repeats := p.anchor, p.lastId, p.repeats;
    var fetched := SaturatingAdd(p.fetched, AsU32(|batch.messages|));
    next := p;
    var oldest := OldestAnchor(batch.messages);
    if oldest.None? {
      var end := StampAndFinish(store, t, anchor, false, r);
      return next, Some(end);
    }
    if oldest.value.id == lastId {
      repeats := repeats + 1;
      if repeats >= STUCK_K {
        return next, Some(Ended(FailedWith(AnchorStuck)));
      }
    } else {
      repeats := 0;
      lastId := oldest.value.id;
    }
    var exhausted := |batch.messages| == 0 || !batch.moreRemain;
    anchor := oldest.value;
    if r.save.Crash? {
      return next, Some(Killed);
    }
    if r.save.Ok? {
      store.RecordProgress(t.job, t.chat, anchor, batch.moreRemain, exhausted, fetched);
    }
    var step := EvaluateTarget(t.target, fetched, Some(anchor.tsMs), batch.moreRemain, t.backstop);
    match step {
      case StepDone =>
        var end := StampAndFinish(store, t, anchor, batch.moreRemain, r);
        return next, Some(end);
      case StepParked =>
        return next, Some(Ended(Parked));
      case Continue =>
        if r.cancelledInPace {
          return next, Some(Ended(Stopped));
        }
        return Paging(anchor, fetched, lastId, repeats), None;
    }
  }

  /** The body of the paging loop; `None` goes round again. */
  method TurnJob(store: Store, t: Task, p: Paging, r: Round) returns (next: Paging, outcome: Option<Outcome>)
    modifies store
    ensures Turn(t, p, old(store.Tables()), r)
         == if outcome.Some? then Stop(outcome.value, store.Tables()) else Next(next, store.Tables())
  {
    next := p;
    if r.cancelled {
      if r.save.Crash? {
        return next, Some(Killed);
      }
      if r.save.Ok? {
        store.UpsertCursor(t.chat, p.anchor, true, false, None);
      }
      return next, Some(Ended(Stopped));
    }
    if !r.ready {
      return next, Some(Ended(Deferred));
    }
    if r.answer.FetchError? {
      return next, Some(Ended(if r.answer.stillReady then FailedWith(FetchFailed) else Deferred));
    }
    store.InsertRows(r.kept);
    if r.persist.Crash? {
      return next, Some(Killed);
    }
    if r.persist.Refused? {
      return next, Some(Ended(FailedWith(PersistFailed)));
    }
    next, outcome := AdvanceJob(store, t, p, r.answer.batch, r);
  }

  method ProcessJob(store: Store, job: nat, cfg: Config, lookups: Lookups,
                    rounds: seq<Round>) returns (outcome: Outcome)
    requires job < |store.jobs|
    modifies store
    ensures Run(outcome, store.Tables()) == ProcessReading(old(store.Tables()), job, cfg, lookups, rounds)
  {
    var row := store.jobs[job];
    if cfg.batchSize <= 0 {
      return Ended(FailedWith(InvalidBatchSize));
    }
    var target := ParseTarget(row.targetKind, row.targetValue);
    if target.None? {
      return Ended(FailedWith(BadTarget));
    }
    if !lookups.cursorOk {
      return Ended(FailedWith(StoreUnreadable));
    }
    if row.chat in store.cursors && store.cursors[row.chat].exhausted {
      return Ended(Done);
    }
    var resolution := ResolveAnchor(Db(store.rows, store.cursors, store.jobs), row.chat);
    if !resolution.FromCursor? && !lookups.oldestOk {
      return Ended(FailedWith(StoreUnreadable));
    }
    if resolution.Unanchored? {
      return Ended(FailedWith(NoAnchor));
    }
    var task := Task(job, row.chat, target.value, cfg.backstop);
    var paging := Paging(resolution.anchor, AsU32(if row.fetched < 0 then 0 else row.fetched), resolution.anchor.id, 0);
    ghost var first := paging;
    var i := 0;
    while i < |rounds|
      invariant i <= |rounds|
      invariant Pages(task, first, old(store.Tables()), rounds) == Pages(task, paging, store.Tables(), rounds[i..])
    {
      assert rounds[i..][0] == rounds[i] && rounds[i..][1..] == rounds[i + 1..];
      var next, ended := TurnJob(store, task, paging, rounds[i]);
      if ended.Some? {
        return ended.value;
      }
      paging := next;
      i := i + 1;
    }
    outcome := Killed;
  }

  /**
   One pass of the worker loop: whether the source is connected, whether a job can be claimed, the
   claimed job's reads and rounds, and whether its status can be written.
   */
  datatype Tick = Tick(ready: bool, claimOk: bool, lookups: Lookups, rounds: seq<Round>, markOk: bool)

  /** One pass of the worker loop: claim the first queued job, run it, record its status. */
  function Work(db: Db, cfg: Config, tick: Tick): Db {
    var next := NextQueued(db.jobs, 0);
    if !tick.ready || !tick.claimOk || next.None? then db
    else
      var claimed := db.(jobs := db.jobs[next.value := db.jobs[next.value].(status := Running)]);
      var run := ProcessReading(claimed, next.value, cfg, tick.lookups, tick.rounds);
      match run.outcome
      case Ended(end) => if tick.markOk then Marked(run.db, next.value, StatusFor(end)) else run.db
      case Killed => run.db
  }

  method RunWorkerPass(store: Store, cfg: Config, tick: Tick)
    modifies store
    ensures store.Tables() == Work(old(store.Tables()), cfg, tick)
  {
    if !tick.ready || !tick.claimOk {
      return;
    }
    var claimed := store.ClaimNext();
    if claimed.None? {
      return;
    }
    var outcome := ProcessJob(store, claimed.value, cfg, tick.lookups, tick.rounds);
    match outcome {
      case Ended(end) =>
        if tick.markOk {
          store.MarkJob(claimed.value, StatusFor(end));
        }
      case Killed =>
    }
  }
}
