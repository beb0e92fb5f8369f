/**
 What a pass of the worker leaves behind, by name: the status of the claimed job, the time a
 backfill was completed, the finality of a cancel, and the cursors the outside writers leave.
 */
module BackfillStatus {
  import opened Wrappers
  import opened History
  import opened BackfillStore
  import opened Backfill
  import opened CursorWriters
  import opened BackfillNoGaps
  import opened BackfillLife
  import opened BackfillBounds
  import opened BackfillStops

  // ----- the status of a claimed job -----

  /** At most one job's counter differs. */
  ghost predicate OnlyCounter(db: Db, db': Db, job: nat) {
    && |db'.jobs| == |db.jobs|
    && (forall i :: 0 <= i < |db.jobs| && i != job ==> db'.jobs[i] == db.jobs[i])
    && (job < |db.jobs| ==> db'.jobs[job] == db.jobs[job].(fetched := db'.jobs[job].fetched))
  }

  lemma DecideKeepsJobs(t: Task, p: Paging, db: Db, more: bool, r: Round)
    ensures Decide(t, p, db, more, r).db.jobs == db.jobs
  {
  }

  lemma MoveCounts(t: Task, p: Paging, db: Db, a: Anchor, batch: HistoryBatch, r: Round)
    ensures OnlyCounter(db, Move(t, p, db, a, batch, r).db, t.job)
  {
    var next := BackfillResume.NextPaging(p, a, batch);
    var exhausted := |batch.messages| == 0 || !batch.moreRemain;
    DecideKeepsJobs(t, next, db, batch.moreRemain, r);
    var recorded := Recorded(db, t.job, t.chat, a, batch.moreRemain, exhausted, next.fetched);
    DecideKeepsJobs(t, next, recorded, batch.moreRemain, r);
  }

  lemma TurnCounts(t: Task, p: Paging, db: Db, r: Round)
    ensures OnlyCounter(db, Turn(t, p, db, r).db, t.job)
  {
    if Fetches(r) && r.answer.Page? && r.persist.Ok? {
      var stored := db.(rows := InsertAll(db.rows, r.kept));
      if OldestAnchor(r.answer.batch.messages).Some? {
        MoveCounts(t, p, stored, OldestAnchor(r.answer.batch.messages).value, r.answer.batch, r);
      }
    }
  }

  /** A run changes nothing of the job table but its own job's counter. */
  lemma {:induction false} RunCounts(t: Task, p: Paging, db: Db, rounds: seq<Round>)
    ensures OnlyCounter(db, Pages(t, p, db, rounds).db, t.job)
    decreases |rounds|
  {
    if rounds == [] {
    } else {
      var turned := Turn(t, p, db, rounds[0]);
      TurnCounts(t, p, db, rounds[0]);
      if turned.Next? {
        RunCounts(t, turned.paging, turned.db, rounds[1..]);
      }
    }
  }

  lemma ProcessCounts(db: Db, job: nat, cfg: Config, lookups: Lookups, rounds: seq<Round>)
    requires job < |db.jobs|
    ensures OnlyCounter(db, ProcessReading(db, job, cfg, lookups, rounds).db, job)
  {
    var opening := BeginReading(db, job, cfg, lookups);
    if opening.Open? {
      RunCounts(opening.task, opening.paging, db, rounds);
    }
  }

  function Claimed(db: Db, job: nat): Db
    requires job < |db.jobs|
  {
    db.(jobs := db.jobs[job := db.jobs[job].(status := Running)])
  }

  /** Which status goes with which end of the run. */
  predicate StatusTells(status: Status, outcome: Outcome, markOk: bool) {
    && (status == Finished <==> markOk && outcome == Ended(Done))
    && (status == Paused <==> markOk && outcome == Ended(Parked))
    && (status == Failed <==> markOk && outcome.Ended? && outcome.end.FailedWith?)
    && (status == Queued <==> markOk && (outcome == Ended(Stopped) || outcome == Ended(Deferred)))
    && (status == Running <==> !markOk || outcome == Killed)
    && status != Cancelled
  }

  /** The claimed job tells how its run ended, and no other job changes. */
  ghost predicate Settles(db: Db, cfg: Config, tick: Tick, job: nat, after: Db)
    requires job < |db.jobs|
  {
    var run := ProcessReading(Claimed(db, job), job, cfg, tick.lookups, tick.rounds);
    && |after.jobs| == |db.jobs|
    && (forall i :: 0 <= i < |db.jobs| && i != job ==> after.jobs[i] == db.jobs[i])
    && after.jobs[job] == db.jobs[job].(status := after.jobs[job].status, fetched := after.jobs[job].fetched)
    && StatusTells(after.jobs[job].status, run.outcome, tick.markOk)
    && after.rows == run.db.rows && after.cursors == run.db.cursors
  }

  /**
   A pass does nothing unless the source is connected, the claim goes through and a job is queued.
   Otherwise the first queued job tells how its run ended: finished, paused, failed, queued again,
   or still running when the process died or the status could not be written.
   */
  lemma PassSettles(db: Db, cfg: Config, tick: Tick)
    ensures !tick.ready || !tick.claimOk || (forall i :: 0 <= i < |db.jobs| ==> db.jobs[i].status != Queued) ==>
              Work(db, cfg, tick) == db
    ensures forall job: nat :: tick.ready && tick.claimOk && FirstQueued(db, job) ==>
              Settles(db, cfg, tick, job, Work(db, cfg, tick))
  {
    forall job: nat | tick.ready && tick.claimOk && FirstQueued(db, job)
      ensures Settles(db, cfg, tick, job, Work(db, cfg, tick))
    {
      assert NextQueued(db.jobs, 0) == Some(job);
      JobSettles(db, cfg, tick, job);
    }
  }

  predicate FirstQueued(db: Db, job: nat) {
    && job < |db.jobs| && db.jobs[job].status == Queued
    && forall i :: 0 <= i < job ==> db.jobs[i].status != Queued
  }

  lemma JobSettles(db: Db, cfg: Config, tick: Tick, job: nat)
    requires tick.ready && tick.claimOk && NextQueued(db.jobs, 0) == Some(job)
    ensures Settles(db, cfg, tick, job, Work(db, cfg, tick))
  {
    var run := ProcessReading(Claimed(db, job), job, cfg, tick.lookups, tick.rounds);
    ProcessCounts(Claimed(db, job), job, cfg, tick.lookups, tick.rounds);
    RunSettles(db, job, run, tick.markOk);
    assert Work(db, cfg, tick) == Closed(run, job, tick.markOk);
  }

  /** The tables once the status of a run's job is written, or not. */
  function Closed(run: Run, job: nat, markOk: bool): Db {
    match run.outcome
    case Ended(end) => if markOk then Marked(run.db, job, StatusFor(end)) else run.db
    case Killed => run.db
  }

  lemma RunSettles(db: Db, job: nat, run: Run, markOk: bool)
    requires job < |db.jobs| && OnlyCounter(Claimed(db, job), run.db, job)
    ensures var after := Closed(run, job, markOk);
            && OnlyCounter(db, after.(jobs := after.jobs[job := after.jobs[job].(status := db.jobs[job].status)]), job)
            && StatusTells(after.jobs[job].status, run.outcome, markOk)
            && after.rows == run.db.rows && after.cursors == run.db.cursors
  {
  }

  // ----- a cancel is final -----

  predicate IsCancelled(db: Db, job: nat) {
    job < |db.jobs| && db.jobs[job].status == Cancelled
  }

  lemma EventKeepsCancelled(db: Db, e: Event, job: nat)
    requires IsCancelled(db, job)
    ensures IsCancelled(Apply(db, e), job)
  {
    if e.JobRun? && e.job < |db.jobs| {
      ProcessCounts(db, e.job, e.cfg, READABLE, e.rounds);
      assert Process(db, e.job, e.cfg, e.rounds) == ProcessReading(db, e.job, e.cfg, READABLE, e.rounds);
    }
  }

  lemma {:induction false} CancelledStays(db: Db, events: seq<Event>, job: nat)
    requires IsCancelled(db, job)
    ensures IsCancelled(ApplyAll(db, events), job)
    decreases |events|
  {
    if events == [] {
    } else {
      EventKeepsCancelled(db, events[0], job);
      CancelledStays(Apply(db, events[0]), events[1..], job);
    }
  }

  lemma CancelLands(db: Db, job: nat)
    requires job < |db.jobs|
    ensures IsCancelled(Apply(db, StatusWrite(job, Cancelled)), job)
  {
  }

  /** Once a job was cancelled, no run, pass or status write in the rest of its life changes that. */
  lemma CancelIsFinal(db: Db, before: seq<Event>, job: nat, xs: seq<Happening>)
    requires job < |ApplyAll(db, before).jobs|
    ensures IsCancelled(HappenAll(Apply(ApplyAll(db, before), StatusWrite(job, Cancelled)), xs), job)
  {
    var cancelled := Apply(ApplyAll(db, before), StatusWrite(job, Cancelled));
    CancelLands(ApplyAll(db, before), job);
    HappeningsAreEvents(cancelled, xs);
    CancelledStays(cancelled, EventsOfAll(cancelled, xs), job);
  }

  // ----- when a backfill was completed -----

  function CompletedAt(db: Db, chat: string): Option<int> {
    if chat in db.cursors then db.cursors[chat].lastBackfillAt else None
  }

  lemma CompleteStamps(db: Db, chat: string, a: Anchor, more: bool, r: Round)
    ensures CompletedAt(Complete(db, chat, a, more, r).db, chat)
         == if r.stamp.Ok? then Some(r.now) else CompletedAt(db, chat)
  {
  }

  /** The turn changed the completion time exactly when it was done and could stamp it. */
  ghost predicate StampsRightly(was: Option<int>, chat: string, r: Round, turned: Turned) {
    CompletedAt(turned.db, chat)
    == if turned.Stop? && turned.outcome == Ended(Done) && r.stamp.Ok? then Some(r.now) else was
  }

  lemma DecideStamps(t: Task, p: Paging, db: Db, more: bool, r: Round)
    ensures StampsRightly(CompletedAt(db, t.chat), t.chat, r, Decide(t, p, db, more, r))
  {
    CompleteStamps(db, t.chat, p.anchor, more, r);
  }

  lemma MoveStamps(t: Task, p: Paging, db: Db, a: Anchor, batch: HistoryBatch, r: Round)
    ensures StampsRightly(CompletedAt(db, t.chat), t.chat, r, Move(t, p, db, a, batch, r))
  {
    var next := BackfillResume.NextPaging(p, a, batch);
    var exhausted := |batch.messages| == 0 || !batch.moreRemain;
    var recorded := Recorded(db, t.job, t.chat, a, batch.moreRemain, exhausted, next.fetched);
    assert CompletedAt(recorded, t.chat) == CompletedAt(db, t.chat);
    DecideStamps(t, next, db, batch.moreRemain, r);
    DecideStamps(t, next, recorded, batch.moreRemain, r);
  }

  lemma TurnStamps(t: Task, p: Paging, db: Db, r: Round)
    ensures StampsRightly(CompletedAt(db, t.chat), t.chat, r, Turn(t, p, db, r))
  {
    if Fetches(r) && r.answer.Page? && r.persist.Ok? {
      var stored := db.(rows := InsertAll(db.rows, r.kept));
      if OldestAnchor(r.answer.batch.messages).Some? {
        MoveStamps(t, p, stored, OldestAnchor(r.answer.batch.messages).value, r.answer.batch, r);
      } else {
        CompleteStamps(stored, t.chat, p.anchor, false, r);
      }
    }
  }

  /** A run that is done, and whose completion write goes through, leaves the time it was done; any
      other run leaves the time of the last one that was. */
  lemma {:induction false} RunStampsExactly(t: Task, p: Paging, db: Db, rounds: seq<Round>)
    ensures var run, last := Pages(t, p, db, rounds), FinalTurn(t, p, db, rounds);
            CompletedAt(run.db, t.chat)
            == if run.outcome == Ended(Done) && last.Some? && last.value.round.stamp.Ok? then Some(last.value.round.now)
               else CompletedAt(db, t.chat)
    decreases |rounds|
  {
    if rounds == [] {
    } else {
      var turned := Turn(t, p, db, rounds[0]);
      TurnStamps(t, p, db, rounds[0]);
      if turned.Next? {
        RunStampsExactly(t, turned.paging, turned.db, rounds[1..]);
      }
    }
  }

  // ----- what the outside writers leave -----

  predicate IsExhausted(db: Db, chat: string) {
    chat in db.cursors && db.cursors[chat].exhausted
  }

  /** The tables differ at most in the chat's cursor. */
  ghost predicate OnlyCursor(db: Db, db': Db, chat: string) {
    && db'.rows == db.rows && db'.jobs == db.jobs && chat in db'.cursors
    && db'.cursors.Keys == db.cursors.Keys + {chat}
    && forall other :: other in db.cursors && other != chat ==> db'.cursors[other] == db.cursors[other]
  }

  /** A cursor at an anchor, open for fetching, with the completion time it had. */
  ghost predicate OpenedAt(db: Db, db': Db, chat: string, a: Anchor, more: bool) {
    && OnlyCursor(db, db', chat)
    && db'.cursors[chat] == Cursor(Some(a.id), Some(a.fromMe), Some(a.tsMs), more, false, CompletedAt(db, chat))
  }

  /** A cancel seen ahead of a fetch leaves the cursor at the loop's anchor, open for fetching, so that
      even a chat without a cursor resumes there; a write that does not go through changes nothing. */
  lemma CancelWritesAnchor(t: Task, p: Paging, db: Db, rounds: seq<Round>)
    requires FinalTurn(t, p, db, rounds).Some? && FinalTurn(t, p, db, rounds).value.round.cancelled
    ensures var run, last := Pages(t, p, db, rounds), FinalTurn(t, p, db, rounds).value;
            && (run.outcome == Ended(Stopped) <==> !last.round.save.Crash?)
            && (if last.round.save.Ok? then OpenedAt(last.db, run.db, t.chat, last.paging.anchor, true)
                else run.db == last.db)
  {
    var last := FinalTurn(t, p, db, rounds).value;
    RunEndsWithLast(t, p, db, rounds);
    CancelledTurn(t, last.paging, last.db, last.round);
  }

  lemma CancelledTurn(t: Task, p: Paging, db: Db, r: Round)
    requires r.cancelled
    ensures var turned := Turn(t, p, db, r);
            && turned.Stop? && (turned.outcome == Ended(Stopped) <==> !r.save.Crash?)
            && (if r.save.Ok? then OpenedAt(db, turned.db, t.chat, p.anchor, true) else turned.db == db)
  {
  }

  /** A chat-state sync opens a cursor exactly for a chat that is not exhausted and has neither a
      usable cursor nor a stored message. */
  lemma SeedsExactly(db: Db, chat: string, a: Anchor)
    ensures var bare := !IsExhausted(db, chat) && !HasUsableCursor(db, chat) && !HasRow(db, chat);
            if bare then OpenedAt(db, Seeded(db, chat, a), chat, a, true) else Seeded(db, chat, a) == db
  {
    OldestRowExists(db.rows, chat);
  }

  /** A trigger opens a cursor exactly for a chat that is not exhausted and has stored messages but no
      usable cursor: at its oldest stored message. */
  lemma TriggersExactly(db: Db, chat: string)
    ensures var opens := !IsExhausted(db, chat) && !HasUsableCursor(db, chat) && HasRow(db, chat);
            if opens then
              exists a :: StartsAtOldest(db, chat, a)
                          && OpenedAt(db, Triggered(db, chat), chat, a,
                                      chat in db.cursors ==> db.cursors[chat].moreRemain)
            else Triggered(db, chat) == db
  {
    OldestRowExists(db.rows, chat);
    if !IsExhausted(db, chat) && !HasUsableCursor(db, chat) && HasRow(db, chat) {
      OldestIsRow(db.rows, chat);
      OldestRowIsLeast(db.rows, chat);
      var a := StoredAnchor(OldestRow(db.rows, chat).value);
      assert StartsAtOldest(db, chat, a);
      assert OpenedAt(db, Triggered(db, chat), chat, a, chat in db.cursors ==> db.cursors[chat].moreRemain);
    }
  }
}
