/**
 Facts about the paging loop that need nothing of the source, and what becomes of them against
 a phone with one history: how many fetches a run issues, when the stuck-anchor guard fires,
 and that every cursor writer keeps the two flags opposite.
 */
module BackfillBounds {
  import opened Wrappers
  import opened History
  import opened PhoneHistory
  import opened BackfillStore
  import opened Backfill
  import opened BackfillNoGaps
  import opened BackfillLife
  import opened BackfillResume

  predicate Fetches(r: Round) { !r.cancelled && r.ready }

  /** How many times a run calls the source. */
  function FetchCount(t: Task, p: Paging, db: Db, rounds: seq<Round>): nat
    decreases |rounds|
  {
    if rounds == [] then 0
    else
      (if Fetches(rounds[0]) then 1 else 0)
      + (match Turn(t, p, db, rounds[0])
         case Next(p', db') => FetchCount(t, p', db', rounds[1..])
         case Stop(_, _) => 0)
  }

  /** Batches shorter than the range of a u32, so that adding their length never wraps. */
  ghost predicate ShortBatches(rounds: seq<Round>) {
    forall i :: 0 <= i < |rounds| && rounds[i].answer.Page? ==> |rounds[i].answer.batch.messages| < U32_SIZE
  }

  /** The limit on a job's messages: the count itself, or the backstop. */
  function Limit(t: Task): nat {
    match t.target
    case Count(n) => n
    case _ => t.backstop
  }

  /** Going round again takes at least one message, and leaves the limit unreached. */
  lemma ContinuingCounts(t: Task, p: Paging, db: Db, r: Round)
    requires r.answer.Page? ==> |r.answer.batch.messages| < U32_SIZE
    requires t.target.Count? || t.backstop > 0
    ensures var turned := Turn(t, p, db, r);
            turned.Next? ==> Fetches(r) && p.fetched < turned.paging.fetched < Limit(t)
  {
    if Fetches(r) && r.answer.Page? && r.persist.Ok? {
      var batch := r.answer.batch;
      var stored := db.(rows := InsertAll(db.rows, r.kept));
      assert Turn(t, p, db, r) == Advance(t, p, stored, batch, r);
      if OldestAnchor(batch.messages).Some? {
        OldestIsLeast(batch.messages);
        ContinuingMove(t, p, stored, OldestAnchor(batch.messages).value, batch, r);
      }
    }
  }

  lemma ContinuingMove(t: Task, p: Paging, db: Db, oldest: Anchor, batch: HistoryBatch, r: Round)
    requires 0 < |batch.messages| < U32_SIZE
    requires t.target.Count? || t.backstop > 0
    ensures var turned := Move(t, p, db, oldest, batch, r);
            turned.Next? ==> p.fetched < turned.paging.fetched < Limit(t)
  {
    assert AsU32(|batch.messages|) == |batch.messages|;
  }

  /**
   Against any source at all, a bounded job fetches at most as often as it has messages left to
   count, and at least one fetch is always allowed.
   */
  lemma {:induction false} BoundedFetches(t: Task, p: Paging, db: Db, rounds: seq<Round>)
    requires ShortBatches(rounds)
    requires t.target.Count? || t.backstop > 0
    ensures FetchCount(t, p, db, rounds) <= if Limit(t) - p.fetched > 1 then Limit(t) - p.fetched else 1
    decreases |rounds|
  {
    if rounds == [] {
    } else {
      ContinuingCounts(t, p, db, rounds[0]);
      var turned := Turn(t, p, db, rounds[0]);
      if turned.Next? {
        BoundedFetches(t, turned.paging, turned.db, rounds[1..]);
      }
    }
  }

  /** The rounds of an undisturbed run. */
  ghost function Transcript(w: World, t: Task, p: Paging, db: Db): seq<Round>
    requires Faithful(w)
    decreases Position(w.h, p.anchor)
  {
    QuietTurnAdvances(w, t, p, db);
    [Quiet(w, p.anchor)] +
    match Turn(t, p, db, Quiet(w, p.anchor))
    case Next(p', db') => Transcript(w, t, p', db')
    case Stop(_, _) => []
  }

  /**
   Against a phone with one history the run terminates without any backstop: it takes at most
   one fetch more than there are messages older than its anchor.
   */
  lemma {:induction false} FaithfulRunTerminates(w: World, t: Task, p: Paging, db: Db)
    requires Faithful(w)
    ensures Pages(t, p, db, Transcript(w, t, p, db)) == Drain(w, t, p, db)
    ensures |Transcript(w, t, p, db)| <= Position(w.h, p.anchor) + 1
    decreases Position(w.h, p.anchor)
  {
    QuietTurnAdvances(w, t, p, db);
    var turned := Turn(t, p, db, Quiet(w, p.anchor));
    var whole := Transcript(w, t, p, db);
    if turned.Next? {
      FaithfulRunTerminates(w, t, turned.paging, turned.db);
      assert whole[0] == Quiet(w, p.anchor) && whole[1..] == Transcript(w, t, turned.paging, turned.db);
    } else {
      assert whole == [Quiet(w, p.anchor)];
    }
  }

  // ----- what a count buys -----

  /** At least `n` messages were counted, or the frontier is at the very beginning. */
  ghost predicate CountMet(h: seq<WebMessageInfo>, p: Paging, q: nat, n: u32)
    requires ValidHistory(h)
  {
    q <= Position(h, p.anchor) && (q == 0 || p.fetched + (Position(h, p.anchor) - q) >= n)
  }

  lemma CountingMove(t: Task, p: Paging, db: Db, a: Anchor, batch: HistoryBatch, r: Round)
    requires t.target.Count? && |batch.messages| < U32_SIZE
    ensures var turned := Move(t, p, db, a, batch, r);
            && turned.db.rows == db.rows
            && (turned.Next? ==> turned.paging.anchor == a && turned.paging.fetched == p.fetched + |batch.messages|)
            && (turned.Stop? && turned.outcome == Ended(Done) ==> p.fetched + |batch.messages| >= t.target.n)
  {
  }

  /** A page adds the messages it moves past to the count; when it ends `Done`, the count is met. */
  lemma CountingPage(h: seq<WebMessageInfo>, count: i32, t: Task, p: Paging, db: Db, r: Round, q: nat)
    requires ValidHistory(h) && t.target.Count?
    requires Fetches(r) && r.answer.Page? && r.persist.Ok?
    requires AnswersFrom(h, p.anchor, count, r.answer.batch, q)
    ensures var turned := Turn(t, p, db, r);
            && turned.db.rows == InsertAll(db.rows, r.kept)
            && (turned.Next? ==> Position(h, turned.paging.anchor) == q
                                 && turned.paging.fetched == p.fetched + (Position(h, p.anchor) - q))
            && (turned.Stop? && turned.outcome == Ended(Done) ==> CountMet(h, p, q, t.target.n))
  {
    var batch := r.answer.batch;
    AnswerMovesAnchor(h, p.anchor, count, batch, q);
    var stored := db.(rows := InsertAll(db.rows, r.kept));
    if q < Position(h, p.anchor) {
      var a := MessageAnchor(h[q]).value;
      CountingMove(t, p, stored, a, batch, r);
      assert Turn(t, p, db, r) == Move(t, p, stored, a, batch, r);
    } else {
      assert Turn(t, p, db, r) == Complete(stored, t.chat, p.anchor, false, r);
    }
  }

  /** One turn: going round again counts what it covered, and `Done` has met the count. */
  lemma CountDoneTurn(h: seq<WebMessageInfo>, start: nat, count: i32, t: Task, p: Paging, db: Db,
                      r: Round) returns (q: nat)
    requires ValidHistory(h) && start <= |h| && t.target.Count?
    requires Covered(h, start, db.rows, p.anchor) && HonestRound(h, count, p.anchor, r)
    ensures var turned := Turn(t, p, db, r);
            if turned.Next? then
              && q == Position(h, turned.paging.anchor) <= Position(h, p.anchor)
              && turned.paging.fetched == p.fetched + (Position(h, p.anchor) - q)
            else turned.outcome == Ended(Done) ==> CountMet(h, p, q, t.target.n) && Kept(h, turned.db.rows, q, start)
  {
    q := 0;
    if Fetches(r) && r.answer.Page? && r.persist.Ok? {
      q :| AnswersFrom(h, p.anchor, count, r.answer.batch, q);
      CountingPage(h, count, t, p, db, r, q);
      AnswerCovers(h, start, p.anchor, count, r.answer.batch, q, db.rows, r.kept);
    }
  }

  /**
   `Done` under `Count(n)`: from the start down to some position everything storable is stored,
   and that stretch holds the messages still to count, or reaches the beginning; on a chat with a
   usable cursor always, and from the oldest stored message when batches are stored whole or not
   at all.
   */
  lemma {:induction false} CountDoneStores(h: seq<WebMessageInfo>, start: nat, count: i32, t: Task, p: Paging, db: Db,
                                           rounds: seq<Round>) returns (q: nat)
    requires ValidHistory(h) && start <= |h| && t.target.Count? && p.anchor.id != ""
    requires Covered(h, start, db.rows, p.anchor)
    requires CursorCovered(h, start, db, t.chat)
             || (OldestCovered(h, start, db, t.chat, Position(h, p.anchor)) && WholeRounds(rounds, t.chat))
    requires HonestRounds(h, count, t, p, db, rounds)
    ensures var run := Pages(t, p, db, rounds);
            run.outcome == Ended(Done) ==> CountMet(h, p, q, t.target.n) && Kept(h, run.db.rows, q, start)
    decreases |rounds|
  {
    if rounds == [] {
      q := 0;
    } else {
      var turned := Turn(t, p, db, rounds[0]);
      q := CountDoneTurn(h, start, count, t, p, db, rounds[0]);
      if turned.Next? {
        if CursorCovered(h, start, db, t.chat) {
          TurnKeeps(h, start, count, t, p, db, rounds[0]);
        } else {
          OldestTurnKeeps(h, start, count, t, p, db, rounds[0]);
        }
        q := CountDoneStores(h, start, count, t, turned.paging, turned.db, rounds[1..]);
      }
    }
  }

  // ----- the stuck-anchor guard -----

  /** The batch of a turn came through to the guard, with this oldest message id. */
  function GuardedId(r: Round): Option<string> {
    if Fetches(r) && r.answer.Page? && r.persist.Ok? then
      (match OldestAnchor(r.answer.batch.messages)
       case Some(a) => Some(a.id)
       case None => None)
    else None
  }

  /** The oldest ids of the batches that came through to the guard, in order. */
  function Trail(t: Task, p: Paging, db: Db, rounds: seq<Round>): seq<string>
    decreases |rounds|
  {
    if rounds == [] then []
    else
      (match GuardedId(rounds[0]) case Some(id) => [id] case None => []) +
      (match Turn(t, p, db, rounds[0])
       case Next(p', db') => Trail(t, p', db', rounds[1..])
       case Stop(_, _) => [])
  }

  /** Three equal ids in a row, ending at position `i`. */
  predicate Tripled(ids: seq<string>, i: nat)
    requires i < |ids|
  {
    i >= 2 && ids[i] == ids[i - 1] == ids[i - 2]
  }

  /** The guard's variables after the batches of `past`, the start anchor's id first. */
  ghost predicate GuardTracks(p: Paging, past: seq<string>) {
    && |past| > 0 && p.lastId == past[|past| - 1]
    && p.repeats == (if |past| > 1 && past[|past| - 1] == past[|past| - 2] then 1 else 0)
    && forall i :: 0 <= i < |past| ==> !Tripled(past, i)
  }

  lemma TripledInPrefix(ids: seq<string>, id: string)
    ensures forall i :: 0 <= i < |ids| ==> (Tripled(ids + [id], i) <==> Tripled(ids, i))
  {
  }

  lemma GuardStep(t: Task, p: Paging, db: Db, r: Round, past: seq<string>)
    requires GuardTracks(p, past)
    ensures var turned := Turn(t, p, db, r);
            var id := GuardedId(r);
            && (id.None? ==> turned.Stop? && turned.outcome != Ended(FailedWith(AnchorStuck)))
            && (id.Some? ==>
                  (turned == Stop(Ended(FailedWith(AnchorStuck)), turned.db) <==> Tripled(past + [id.value], |past|)))
            && (turned.Next? ==> id.Some? && GuardTracks(turned.paging, past + [id.value]))
  {
    var id := GuardedId(r);
    if id.Some? {
      TripledInPrefix(past, id.value);
      var now := past + [id.value];
      assert now[|past|] == id.value && now[|past| - 1] == p.lastId;
    }
  }

  /** The only triple is the last one, and it is there exactly when the run ended as stuck. */
  ghost predicate StuckOnTriple(ids: seq<string>, outcome: Outcome) {
    && |ids| > 0
    && (outcome == Ended(FailedWith(AnchorStuck)) <==> Tripled(ids, |ids| - 1))
    && forall i :: 0 <= i < |ids| - 1 ==> !Tripled(ids, i)
  }

  lemma Appended(ids: seq<string>, id: string, more: seq<string>)
    ensures ids + ([id] + more) == ids + [id] + more
  {
  }

  lemma LastTurn(past: seq<string>, id: Option<string>, outcome: Outcome)
    requires |past| > 0 && forall i :: 0 <= i < |past| ==> !Tripled(past, i)
    requires id.None? ==> outcome != Ended(FailedWith(AnchorStuck))
    requires id.Some? ==> (outcome == Ended(FailedWith(AnchorStuck)) <==> Tripled(past + [id.value], |past|))
    ensures StuckOnTriple(past + (match id case Some(x) => [x] case None => []), outcome)
  {
    match id {
      case Some(x) => TripledInPrefix(past, x);
      case None => assert past + [] == past;
    }
  }

  lemma {:induction false} GuardFiresOnTriple(t: Task, p: Paging, db: Db, rounds: seq<Round>, past: seq<string>)
    requires GuardTracks(p, past)
    ensures StuckOnTriple(past + Trail(t, p, db, rounds), Pages(t, p, db, rounds).outcome)
    decreases |rounds|
  {
    if rounds == [] {
      LastTurn(past, None, Killed);
    } else {
      GuardStep(t, p, db, rounds[0], past);
      var turned := Turn(t, p, db, rounds[0]);
      var id := GuardedId(rounds[0]);
      if turned.Next? {
        var rest := Trail(t, turned.paging, turned.db, rounds[1..]);
        GuardFiresOnTriple(t, turned.paging, turned.db, rounds[1..], past + [id.value]);
        Appended(past, id.value, rest);
      } else {
        LastTurn(past, id, turned.outcome);
        var own := match id case Some(x) => [x] case None => [];
        assert own + [] == own && Trail(t, p, db, rounds) == own;
      }
    }
  }

  /**
   A job fails as stuck exactly at the first batch whose oldest id equals both ids before it,
   the starting anchor's counting as the first.
   */
  lemma StuckExactlyOnTriple(db: Db, job: nat, cfg: Config, rounds: seq<Round>)
    requires job < |db.jobs| && Begin(db, job, cfg).Open?
    ensures var t, p := Begin(db, job, cfg).task, Begin(db, job, cfg).paging;
            StuckOnTriple([p.anchor.id] + Trail(t, p, db, rounds), Process(db, job, cfg, rounds).outcome)
  {
    var opening := Begin(db, job, cfg);
    GuardFiresOnTriple(opening.task, opening.paging, db, rounds, [opening.paging.anchor.id]);
  }

  /** An honest answer's oldest id leaves a quiet guard quiet. */
  lemma HonestAnswerKeepsQuiet(h: seq<WebMessageInfo>, count: int, p: Paging, batch: HistoryBatch)
    requires ValidHistory(h) && GuardQuiet(h, p) && Answers(h, p.anchor, count, batch)
    requires OldestAnchor(batch.messages).Some?
    ensures var next := NextPaging(p, OldestAnchor(batch.messages).value, batch);
            next.repeats < STUCK_K && GuardQuiet(h, next)
  {
    var lo: nat :| AnswersFrom(h, p.anchor, count, batch, lo);
    AnswerMovesAnchor(h, p.anchor, count, batch, lo);
  }

  /** A turn that goes on does so from the batch's oldest message. */
  lemma MoveGuard(t: Task, p: Paging, db: Db, a: Anchor, batch: HistoryBatch, r: Round)
    ensures var turned := Move(t, p, db, a, batch, r);
            && (turned.Next? ==> turned.paging == NextPaging(p, a, batch))
            && (NextPaging(p, a, batch).repeats < STUCK_K ==>
                  turned.Next? || turned.outcome != Ended(FailedWith(AnchorStuck)))
  {
  }

  /** One honest turn never trips a quiet guard, and leaves it quiet. */
  lemma HonestTurnKeepsQuiet(h: seq<WebMessageInfo>, count: int, t: Task, p: Paging, db: Db, r: Round)
    requires ValidHistory(h) && GuardQuiet(h, p) && HonestRound(h, count, p.anchor, r)
    ensures var turned := Turn(t, p, db, r);
            if turned.Next? then GuardQuiet(h, turned.paging)
            else turned.outcome != Ended(FailedWith(AnchorStuck))
  {
    if Fetches(r) && r.answer.Page? && r.persist.Ok? {
      var batch := r.answer.batch;
      var a := OldestAnchor(batch.messages);
      if a.Some? {
        var stored := db.(rows := InsertAll(db.rows, r.kept));
        HonestAnswerKeepsQuiet(h, count, p, batch);
        MoveGuard(t, p, stored, a.value, batch, r);
        assert Turn(t, p, db, r) == Move(t, p, stored, a.value, batch, r);
      }
    }
  }

  /** Against a phone with one history the guard never fires, in whatever blocks it answers. */
  lemma {:induction false} HonestPhoneNeverStuck(h: seq<WebMessageInfo>, count: int, t: Task, p: Paging, db: Db,
                                                 rounds: seq<Round>)
    requires ValidHistory(h) && GuardQuiet(h, p) && HonestRounds(h, count, t, p, db, rounds)
    ensures Pages(t, p, db, rounds).outcome != Ended(FailedWith(AnchorStuck))
    decreases |rounds|
  {
    if rounds == [] {
    } else {
      HonestTurnKeepsQuiet(h, count, t, p, db, rounds[0]);
      var turned := Turn(t, p, db, rounds[0]);
      if turned.Next? {
        HonestPhoneNeverStuck(h, count, t, turned.paging, turned.db, rounds[1..]);
      }
    }
  }

  // ----- the cursor's flags -----

  /** In every cursor, `exhausted` says the opposite of `moreRemain`. */
  ghost predicate FlagsOpposed(db: Db) {
    forall chat :: chat in db.cursors ==> db.cursors[chat].exhausted == !db.cursors[chat].moreRemain
  }

  lemma UpsertKeepsFlags(db: Db, chat: string, a: Anchor, moreRemain: bool, lastAt: Option<int>)
    requires FlagsOpposed(db)
    ensures FlagsOpposed(Upserted(db, chat, a, moreRemain, !moreRemain, lastAt))
  {
  }

  lemma DecideKeepsFlags(t: Task, p: Paging, db: Db, moreRemain: bool, r: Round)
    requires FlagsOpposed(db)
    ensures FlagsOpposed(Decide(t, p, db, moreRemain, r).db)
  {
    UpsertKeepsFlags(db, t.chat, p.anchor, moreRemain, Some(r.now));
  }

  lemma MoveKeepsFlags(t: Task, p: Paging, db: Db, a: Anchor, batch: HistoryBatch, r: Round)
    requires FlagsOpposed(db) && batch.messages != []
    ensures FlagsOpposed(Move(t, p, db, a, batch, r).db)
  {
    var next := NextPaging(p, a, batch);
    var recorded := Recorded(db, t.job, t.chat, a, batch.moreRemain, !batch.moreRemain, next.fetched);
    var saved := if r.save.Ok? then recorded else db;
    UpsertKeepsFlags(db, t.chat, a, batch.moreRemain, None);
    assert FlagsOpposed(saved);
    if next.repeats < STUCK_K && !r.save.Crash? {
      DecideKeepsFlags(t, next, saved, batch.moreRemain, r);
      assert Move(t, p, db, a, batch, r) == Decide(t, next, saved, batch.moreRemain, r);
    }
  }

  lemma TurnKeepsFlags(t: Task, p: Paging, db: Db, r: Round)
    requires FlagsOpposed(db)
    ensures FlagsOpposed(Turn(t, p, db, r).db)
  {
    if r.cancelled {
      UpsertKeepsFlags(db, t.chat, p.anchor, true, None);
    } else if r.ready && r.answer.Page? && r.persist.Ok? {
      var batch, stored := r.answer.batch, db.(rows := InsertAll(db.rows, r.kept));
      OldestIsLeast(batch.messages);
      var a := OldestAnchor(batch.messages);
      if a.None? {
        UpsertKeepsFlags(stored, t.chat, p.anchor, false, Some(r.now));
        assert Turn(t, p, db, r) == Complete(stored, t.chat, p.anchor, false, r);
      } else {
        MoveKeepsFlags(t, p, stored, a.value, batch, r);
        assert Turn(t, p, db, r) == Move(t, p, stored, a.value, batch, r);
      }
    }
  }

  lemma {:induction false} PagesKeepFlags(t: Task, p: Paging, db: Db, rounds: seq<Round>)
    requires FlagsOpposed(db)
    ensures FlagsOpposed(Pages(t, p, db, rounds).db)
    decreases |rounds|
  {
    if rounds == [] {
    } else {
      TurnKeepsFlags(t, p, db, rounds[0]);
      var turned := Turn(t, p, db, rounds[0]);
      if turned.Next? {
        PagesKeepFlags(t, turned.paging, turned.db, rounds[1..]);
      }
    }
  }

  /** Every writer of a cursor, in the worker and outside it, keeps the flags opposed. */
  lemma {:induction false} LifeKeepsFlags(db: Db, events: seq<Event>)
    requires FlagsOpposed(db)
    ensures FlagsOpposed(ApplyAll(db, events))
    decreases |events|
  {
    if events == [] {
    } else {
      var e := events[0];
      if e.JobRun? && e.job < |db.jobs| {
        var opening := Begin(db, e.job, e.cfg);
        if opening.Open? {
          PagesKeepFlags(opening.task, opening.paging, db, e.rounds);
        }
      }
      LifeKeepsFlags(Apply(db, e), events[1..]);
    }
  }
}
