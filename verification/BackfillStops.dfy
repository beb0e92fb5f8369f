/**
 When a job starts, when it stops, and why (src/backfill.rs): the exact reason behind each end of
 a run, stated by what the phone and the surroundings did.
 */
module BackfillStops {
  import opened Wrappers
  import opened History
  import opened BackfillStore
  import opened Backfill
  import opened BackfillNoGaps
  import opened BackfillResume
  import opened BackfillBounds

  // ----- targets -----

  /** How the trigger writes a target into the job table (`FetchTarget::to_row`). */
  function TargetKind(target: FetchTarget): string {
    match target
    case Since(_) => "since"
    case All => "all"
    case Count(_) => "count"
  }

  function TargetValue(target: FetchTarget): Option<i64> {
    match target
    case Since(ts) => Some(ts)
    case All => None
    case Count(n) => Some(n)
  }

  /** Every target is read back from its columns, and nothing else is read as a target, except that
      "all" does not look at the value. */
  lemma TargetReadsBack(kind: string, value: Option<i64>, target: FetchTarget)
    ensures ParseTarget(kind, value) == Some(target)
            <==> kind == TargetKind(target) && (value == TargetValue(target) || target.All?)
  {
    assert "since" != "all" && "since" != "count" && "all" != "count";
  }

  // ----- when a turn goes on -----

  /** The target is met by a page that ends at `a`, with `fetched` messages counted. */
  predicate Met(target: FetchTarget, a: Anchor, fetched: u32, moreRemain: bool) {
    match target
    case Since(ts) => a.tsMs <= ts || !moreRemain
    case All => !moreRemain
    case Count(n) => n <= fetched
  }

  /** Only an unbounded target has a backstop, and only a positive one counts. */
  predicate AtBackstop(t: Task, fetched: u32) {
    !t.target.Count? && 0 < t.backstop <= fetched
  }

  /** The page is stored, moves the anchor to `a`, and is recorded or refused. */
  predicate Decided(p: Paging, r: Round, a: Anchor) {
    && Fetches(r) && r.answer.Page? && r.persist.Ok? && !r.save.Crash?
    && OldestAnchor(r.answer.batch.messages) == Some(a)
    && NextPaging(p, a, r.answer.batch).repeats < STUCK_K
  }

  /** How a turn with such a page turns out. */
  ghost predicate StopsRightly(t: Task, next: Paging, more: bool, r: Round, turned: Turned) {
    var met, parks := Met(t.target, next.anchor, next.fetched, more), AtBackstop(t, next.fetched);
    && (turned.Next? <==> !met && !parks && !r.cancelledInPace)
    && (turned.Next? ==> turned.paging == next)
    && (turned.Stop? ==>
          && (turned.outcome == Ended(Done) <==> met && !r.stamp.Crash?)
          && (turned.outcome == Killed <==> met && r.stamp.Crash?)
          && (turned.outcome == Ended(Parked) <==> !met && parks)
          && (turned.outcome == Ended(Stopped) <==> !met && !parks && r.cancelledInPace))
  }

  /** A page ends the run exactly when its target is met, or else its backstop is reached, or else
      the job is cancelled while it waits. */
  lemma PageStopsExactly(t: Task, p: Paging, db: Db, r: Round, a: Anchor)
    requires Decided(p, r, a)
    ensures StopsRightly(t, NextPaging(p, a, r.answer.batch), r.answer.batch.moreRemain, r, Turn(t, p, db, r))
  {
    var batch, next := r.answer.batch, NextPaging(p, a, r.answer.batch);
    var stored := db.(rows := InsertAll(db.rows, r.kept));
    var exhausted := |batch.messages| == 0 || !batch.moreRemain;
    var recorded := Recorded(stored, t.job, t.chat, a, batch.moreRemain, exhausted, next.fetched);
    assert Turn(t, p, db, r) == Move(t, p, stored, a, batch, r);
    DecisionIsRight(t, next, stored, batch.moreRemain, r);
    DecisionIsRight(t, next, recorded, batch.moreRemain, r);
  }

  lemma DecisionIsRight(t: Task, next: Paging, db: Db, more: bool, r: Round)
    ensures StopsRightly(t, next, more, r, Decide(t, next, db, more, r))
  {
  }

  /** The phone has nothing the loop could move to. */
  predicate EmptyPage(r: Round) {
    Fetches(r) && r.answer.Page? && r.persist.Ok? && OldestAnchor(r.answer.batch.messages).None?
  }

  /** Which end has which cause; no other end is possible for a turn without a decision. */
  ghost predicate EndsByCause(p: Paging, r: Round, outcome: Outcome) {
    && (outcome == Ended(Deferred) <==>
          !r.cancelled && (!r.ready || r.answer == FetchError(false)))
    && (outcome == Ended(FailedWith(FetchFailed)) <==> Fetches(r) && r.answer == FetchError(true))
    && (outcome == Ended(FailedWith(PersistFailed)) <==> Fetches(r) && r.answer.Page? && r.persist.Refused?)
    && (outcome == Ended(FailedWith(AnchorStuck)) <==>
          Fetches(r) && r.answer.Page? && r.persist.Ok?
          && OldestAnchor(r.answer.batch.messages).Some?
          && NextPaging(p, OldestAnchor(r.answer.batch.messages).value, r.answer.batch).repeats >= STUCK_K)
    && (outcome == Ended(Done) <==> EmptyPage(r) && !r.stamp.Crash?)
    && (outcome == Ended(Stopped) <==> r.cancelled && !r.save.Crash?)
    && outcome != Ended(Parked)
    && outcome != Ended(FailedWith(NoAnchor)) && outcome != Ended(FailedWith(BadTarget))
    && outcome != Ended(FailedWith(InvalidBatchSize)) && outcome != Ended(FailedWith(StoreUnreadable))
  }

  /** A turn that reaches no decision ends the run, and its end names its cause. */
  lemma UndecidedEndsByCause(t: Task, p: Paging, db: Db, r: Round)
    requires forall a :: !Decided(p, r, a)
    ensures Turn(t, p, db, r).Stop? && EndsByCause(p, r, Turn(t, p, db, r).outcome)
  {
    if Fetches(r) && r.answer.Page? && r.persist.Ok? {
      var a := OldestAnchor(r.answer.batch.messages);
      if a.Some? {
        assert !Decided(p, r, a.value);
      }
    }
  }

  // ----- when a run stops -----

  /** A run's last turn, with what it started from. */
  datatype Last = Last(paging: Paging, db: Db, round: Round)

  /** The turn that ended the run; none when the run outlived its rounds. */
  function FinalTurn(t: Task, p: Paging, db: Db, rounds: seq<Round>): Option<Last>
    decreases |rounds|
  {
    if rounds == [] then None
    else
      match Turn(t, p, db, rounds[0])
      case Next(p', db') => FinalTurn(t, p', db', rounds[1..])
      case Stop(_, _) => Some(Last(p, db, rounds[0]))
  }

  lemma {:induction false} RunEndsWithLast(t: Task, p: Paging, db: Db, rounds: seq<Round>)
    ensures var run, last := Pages(t, p, db, rounds), FinalTurn(t, p, db, rounds);
            if last.None? then run.outcome == Killed
            else Turn(t, last.value.paging, last.value.db, last.value.round) == Stop(run.outcome, run.db)
    decreases |rounds|
  {
    if rounds == [] {
    } else {
      var turned := Turn(t, p, db, rounds[0]);
      if turned.Next? {
        RunEndsWithLast(t, turned.paging, turned.db, rounds[1..]);
      }
    }
  }

  /** The last turn's page left its target unmet at a positive backstop. */
  ghost predicate ParkedAt(t: Task, l: Last) {
    exists a :: Decided(l.paging, l.round, a)
                && var next := NextPaging(l.paging, a, l.round.answer.batch);
                   AtBackstop(t, next.fetched) && !Met(t.target, a, next.fetched, l.round.answer.batch.moreRemain)
  }

  /** The last turn's page met the target, or there was nothing left to move to. */
  ghost predicate DoneAt(t: Task, l: Last) {
    EmptyPage(l.round) ||
    exists a :: Decided(l.paging, l.round, a)
                && var next := NextPaging(l.paging, a, l.round.answer.batch);
                   Met(t.target, a, next.fetched, l.round.answer.batch.moreRemain)
  }

  lemma TurnEndsExactly(t: Task, l: Last)
    ensures var turned := Turn(t, l.paging, l.db, l.round);
            turned.Stop? ==>
              && (turned.outcome == Ended(Parked) <==> ParkedAt(t, l))
              && (turned.outcome == Ended(Done) <==> DoneAt(t, l) && !l.round.stamp.Crash?)
  {
    if a :| Decided(l.paging, l.round, a) {
      PageStopsExactly(t, l.paging, l.db, l.round, a);
      assert forall b :: Decided(l.paging, l.round, b) ==> b == a;
    } else {
      UndecidedEndsByCause(t, l.paging, l.db, l.round);
    }
  }

  /**
   A run parks exactly when its last page left the target unmet at a positive backstop, which a
   count never has; it is done exactly when its last page met the target or found nothing left.
   */
  lemma RunStopsExactly(t: Task, p: Paging, db: Db, rounds: seq<Round>)
    ensures var run, last := Pages(t, p, db, rounds), FinalTurn(t, p, db, rounds);
            && (run.outcome == Ended(Parked) <==> last.Some? && ParkedAt(t, last.value))
            && (run.outcome == Ended(Done) <==> last.Some? && DoneAt(t, last.value) && !last.value.round.stamp.Crash?)
            && (t.target.Count? || t.backstop == 0 ==> run.outcome != Ended(Parked))
  {
    RunEndsWithLast(t, p, db, rounds);
    var last := FinalTurn(t, p, db, rounds);
    if last.Some? {
      TurnEndsExactly(t, last.value);
    }
  }

  /** Where the run stood at each of its fetches. */
  function FetchedFrom(t: Task, p: Paging, db: Db, rounds: seq<Round>): seq<Paging>
    decreases |rounds|
  {
    if rounds == [] then []
    else
      (if Fetches(rounds[0]) then [p] else []) +
      (match Turn(t, p, db, rounds[0])
       case Next(p', db') => FetchedFrom(t, p', db', rounds[1..])
       case Stop(_, _) => [])
  }

  /** Short of the target and of the backstop. */
  predicate StillShort(t: Task, p: Paging) {
    && (t.target.Since? ==> p.anchor.tsMs > t.target.tsMs)
    && (t.target.Count? ==> p.fetched < t.target.n)
    && (!t.target.Count? && t.backstop > 0 ==> p.fetched < t.backstop)
  }

  lemma NextIsShort(t: Task, p: Paging, db: Db, r: Round)
    requires Turn(t, p, db, r).Next?
    ensures StillShort(t, Turn(t, p, db, r).paging)
    ensures r.answer.Page? && (!t.target.Count? ==> r.answer.batch.moreRemain)
  {
    if a :| Decided(p, r, a) {
      PageStopsExactly(t, p, db, r, a);
    } else {
      UndecidedEndsByCause(t, p, db, r);
    }
  }

  /** After its first fetch a run fetches only while it is short: never from an anchor at or before
      the cutoff, never with the count or the backstop reached. */
  lemma {:induction false} FetchesOnlyWhileShort(t: Task, p: Paging, db: Db, rounds: seq<Round>)
    ensures forall q :: q in FetchedFrom(t, p, db, rounds) ==> q == p || StillShort(t, q)
    ensures forall k :: 0 < k < |FetchedFrom(t, p, db, rounds)| ==> StillShort(t, FetchedFrom(t, p, db, rounds)[k])
    decreases |rounds|
  {
    if rounds == [] {
    } else {
      var turned := Turn(t, p, db, rounds[0]);
      if turned.Next? {
        NextIsShort(t, p, db, rounds[0]);
        var rest := FetchedFrom(t, turned.paging, turned.db, rounds[1..]);
        FetchesOnlyWhileShort(t, turned.paging, turned.db, rounds[1..]);
        forall k | 0 <= k < |rest| ensures StillShort(t, rest[k]) {
          assert rest[k] in rest;
        }
        GoesOnFetching(t, p, db, rounds[0]);
      }
    }
  }

  lemma GoesOnFetching(t: Task, p: Paging, db: Db, r: Round)
    requires Turn(t, p, db, r).Next?
    ensures Fetches(r)
  {
  }

  // ----- what a job starts from -----

  predicate HasRow(db: Db, chat: string) {
    exists row :: row in db.rows && row.chat == chat
  }

  predicate HasUsableCursor(db: Db, chat: string) {
    && chat in db.cursors && db.cursors[chat].id.Some? && db.cursors[chat].id.value != ""
    && db.cursors[chat].tsMs.Some?
  }

  lemma {:induction false} OldestRowExists(rows: seq<MessageRow>, chat: string)
    ensures OldestRow(rows, chat).Some? <==> exists row :: row in rows && row.chat == chat
  {
    if rows == [] {
    } else {
      var n := |rows| - 1;
      OldestRowExists(rows[..n], chat);
      assert rows == rows[..n] + [rows[n]];
      assert rows[n] in rows;
    }
  }

  /** Each way a job can be turned away before its first fetch, and what it starts from otherwise. */
  ghost predicate OpensRightly(db: Db, job: nat, cfg: Config, lookups: Lookups, opening: Opening)
    requires job < |db.jobs|
  {
    var row := db.jobs[job];
    var target := ParseTarget(row.targetKind, row.targetValue);
    var exhausted := row.chat in db.cursors && db.cursors[row.chat].exhausted;
    var askable := cfg.batchSize > 0 && target.Some?;
    && (opening == Finish(FailedWith(InvalidBatchSize)) <==> cfg.batchSize <= 0)
    && (opening == Finish(FailedWith(BadTarget)) <==> cfg.batchSize > 0 && target.None?)
    && (opening == Finish(FailedWith(StoreUnreadable)) <==>
          askable && (!lookups.cursorOk || (!exhausted && !HasUsableCursor(db, row.chat) && !lookups.oldestOk)))
    && (opening == Finish(Done) <==> askable && lookups.cursorOk && exhausted)
    && (opening == Finish(FailedWith(NoAnchor)) <==>
          askable && lookups == READABLE && !exhausted && !HasUsableCursor(db, row.chat) && !HasRow(db, row.chat))
    && (opening.Open? <==>
          askable && lookups.cursorOk && !exhausted
          && (HasUsableCursor(db, row.chat) || (lookups.oldestOk && HasRow(db, row.chat))))
  }

  lemma OpensExactly(db: Db, job: nat, cfg: Config, lookups: Lookups)
    requires job < |db.jobs|
    ensures OpensRightly(db, job, cfg, lookups, BeginReading(db, job, cfg, lookups))
  {
    OldestRowExists(db.rows, db.jobs[job].chat);
  }

  /** The row a chat without a cursor starts from: none of the chat's rows is older, and its time is
      taken in milliseconds. */
  ghost predicate StartsAtOldest(db: Db, chat: string, a: Anchor) {
    exists row ::
      && row in db.rows && row.chat == chat && a.id == row.id && a.fromMe == row.fromMe
      && (I64_MIN <= row.tsSecs * 1000 <= I64_MAX ==> a.tsMs == row.tsSecs * 1000)
      && forall other :: other in db.rows && other.chat == chat ==> row.tsSecs <= other.tsSecs
  }

  lemma {:induction false} OldestRowIsLeast(rows: seq<MessageRow>, chat: string)
    requires OldestRow(rows, chat).Some?
    ensures forall other :: other in rows && other.chat == chat ==> OldestRow(rows, chat).value.tsSecs <= other.tsSecs
  {
    if rows == [] {
    } else {
      var n := |rows| - 1;
      assert rows == rows[..n] + [rows[n]];
      if OldestRow(rows[..n], chat).Some? {
        OldestRowIsLeast(rows[..n], chat);
      } else {
        OldestRowExists(rows[..n], chat);
      }
    }
  }

  /** A run starts from the usable cursor, else from the oldest stored message, with the messages
      the job has counted already; a negative counter counts as none. */
  lemma RunStartsAt(db: Db, job: nat, cfg: Config, lookups: Lookups)
    requires job < |db.jobs| && BeginReading(db, job, cfg, lookups).Open?
    ensures var opening, row := BeginReading(db, job, cfg, lookups), db.jobs[job];
            && opening.task.job == job && opening.task.chat == row.chat && opening.task.backstop == cfg.backstop
            && opening.paging.lastId == opening.paging.anchor.id && opening.paging.repeats == 0
            && (0 <= row.fetched <= U32_MAX ==> opening.paging.fetched == row.fetched)
            && (row.fetched < 0 ==> opening.paging.fetched == 0)
            && (if HasUsableCursor(db, row.chat) then
                  && opening.paging.anchor.id == db.cursors[row.chat].id.value
                  && opening.paging.anchor.tsMs == db.cursors[row.chat].tsMs.value
                  && (opening.paging.anchor.fromMe <==> db.cursors[row.chat].fromMe == Some(true))
                else StartsAtOldest(db, row.chat, opening.paging.anchor))
  {
    var chat := db.jobs[job].chat;
    if !HasUsableCursor(db, chat) {
      OldestIsRow(db.rows, chat);
      OldestRowIsLeast(db.rows, chat);
      assert StartsAtOldest(db, chat, StoredAnchor(OldestRow(db.rows, chat).value));
    }
  }
}
