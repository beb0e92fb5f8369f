/**
 Resuming is the same as never stopping. Against a deterministic phone that answers from one
 fixed history, a job cut by any number of stops, deferrals and deaths, and queued again each
 time, reaches what one uninterrupted run reaches. Two cuts can break this for a chat with a
 usable cursor: one between the record of a batch that meets the target and the completion
 write, and one between the end of the run and its status write. Both do exactly when the job's
 chat has more to give.
 */
module BackfillResume {
  import opened Wrappers
  import opened History
  import opened PhoneHistory
  import opened BackfillStore
  import opened Backfill

  /** The fixed surroundings of a job: the phone's history, its answers, and the sink's rows. */
  datatype World =
    World(h: seq<WebMessageInfo>, cfg: Config, phone: Anchor -> HistoryBatch,
          sink: seq<WebMessageInfo> -> seq<MessageRow>)

  ghost predicate Faithful(w: World) {
    && ValidHistory(w.h) && w.cfg.batchSize > 0 && w.sink([]) == []
    && forall a: Anchor :: Answers(w.h, a, w.cfg.batchSize, w.phone(a))
  }

  /** The process may die before the record of a batch, with a front part of its rows stored; a
      chat without a usable cursor would start elsewhere then, unless nothing was stored. */
  ghost predicate DiesBeforeRecord(w: World, t: Task, p: Paging, db: Db, r: Round) {
    && (ResolveAnchor(db, t.chat).FromCursor? || r.kept == [])
    && r.answer.Page? && r.answer.batch == w.phone(p.anchor)
    && var rows := w.sink(r.answer.batch.messages);
    (r.persist.Crash? && r.kept <= rows) ||
    (r.persist.Ok? && r.kept == rows && r.save.Crash? && OldestAnchor(r.answer.batch.messages).Some?)
  }

  /** The batch is recorded, and its target met with more remaining. */
  ghost predicate MetWithMore(w: World, t: Task, p: Paging) {
    var batch := w.phone(p.anchor);
    match OldestAnchor(batch.messages)
    case None => false
    case Some(a) =>
      batch.moreRemain &&
      EvaluateTarget(t.target, NextPaging(p, a, batch).fetched, Some(a.tsMs), true, t.backstop).StepDone?
  }

  /** The answer is stored and recorded; the process may die before the completion write, unless
      the target is met with more remaining, and a recorded answer's completion write may be
      refused. */
  ghost predicate Records(w: World, t: Task, p: Paging, r: Round) {
    && r.answer.Page? && r.answer.batch == w.phone(p.anchor)
    && r.kept == w.sink(r.answer.batch.messages) && r.persist.Ok?
    && (OldestAnchor(r.answer.batch.messages).Some? ==> r.save.Ok?)
    && (r.stamp.Crash? ==> !MetWithMore(w, t, p))
    && (r.stamp.Refused? ==> OldestAnchor(r.answer.batch.messages).Some?)
  }

  /** The phone and the store do their part; the job may be stopped, deferred or killed. */
  ghost predicate Reliable(w: World, t: Task, p: Paging, db: Db, r: Round) {
    if r.cancelled || !r.ready then true
    else if r.answer.FetchError? then !r.answer.stillReady
    else Records(w, t, p, r) || DiesBeforeRecord(w, t, p, db, r)
  }

  ghost predicate ReliableRounds(w: World, t: Task, p: Paging, db: Db, rounds: seq<Round>)
    decreases |rounds|
  {
    rounds == [] ||
    (Reliable(w, t, p, db, rounds[0]) &&
     (match Turn(t, p, db, rounds[0])
      case Next(p', db') => ReliableRounds(w, t, p', db', rounds[1..])
      case Stop(_, _) => true))
  }

  /** A turn nothing disturbs. */
  function Quiet(w: World, a: Anchor): Round {
    Round(false, true, Page(w.phone(a)), w.sink(w.phone(a).messages), Ok, Ok, Ok, false, 0)
  }

  lemma QuietTurnAdvances(w: World, t: Task, p: Paging, db: Db)
    requires Faithful(w)
    ensures var turned := Turn(t, p, db, Quiet(w, p.anchor));
            turned.Next? ==> Position(w.h, turned.paging.anchor) < Position(w.h, p.anchor)
  {
    var lo: nat :| AnswersFrom(w.h, p.anchor, w.cfg.batchSize, w.phone(p.anchor), lo);
    AnswerMovesAnchor(w.h, p.anchor, w.cfg.batchSize, w.phone(p.anchor), lo);
  }

  /** The paging loop when nothing disturbs it. It ends, because the anchor only moves back. */
  ghost function Drain(w: World, t: Task, p: Paging, db: Db): Run
    requires Faithful(w)
    decreases Position(w.h, p.anchor)
  {
    QuietTurnAdvances(w, t, p, db);
    match Turn(t, p, db, Quiet(w, p.anchor))
    case Next(p', db') => Drain(w, t, p', db')
    case Stop(outcome, db') => Run(outcome, db')
  }

  ghost function Uninterrupted(w: World, db: Db, job: nat): Run
    requires Faithful(w) && job < |db.jobs|
  {
    match Begin(db, job, w.cfg)
    case Finish(end) => Run(Ended(end), db)
    case Open(t, p) => Drain(w, t, p, db)
  }

  /** What the comparison looks at: the end, the rows, the frontier and its flags, the counter. */
  datatype View =
    View(outcome: Outcome, rows: seq<MessageRow>, anchor: Option<Anchor>, moreRemain: bool, exhausted: bool,
         fetched: int)

  function Observe(run: Run, chat: string, job: nat): View {
    var c := GetCursor(run.db, chat);
    View(run.outcome, run.db.rows,
         if c.Some? then CursorAnchor(c.value) else None,
         c.Some? && c.value.moreRemain, c.Some? && c.value.exhausted,
         if job < |run.db.jobs| then run.db.jobs[job].fetched else 0)
  }

  /** The stuck-anchor guard cannot fire on what is left of the history. */
  ghost predicate GuardQuiet(h: seq<WebMessageInfo>, p: Paging)
    requires ValidHistory(h)
  {
    p.repeats == 0 || (p.repeats == 1 && forall i :: 0 <= i < Position(h, p.anchor) ==> h[i].id.value != p.lastId)
  }

  function NextPaging(p: Paging, a: Anchor, batch: HistoryBatch): Paging {
    Paging(a, SaturatingAdd(p.fetched, AsU32(|batch.messages|)), a.id, if a.id == p.lastId then p.repeats + 1 else 0)
  }

  /** The tables once the answer to `p` is stored and recorded at `a`. */
  function Saved(w: World, t: Task, p: Paging, db: Db, a: Anchor): Db {
    var batch := w.phone(p.anchor);
    Recorded(db.(rows := InsertAll(db.rows, w.sink(batch.messages))), t.job, t.chat, a,
             batch.moreRemain, !batch.moreRemain, NextPaging(p, a, batch).fetched)
  }

  /** An answer without an anchor is the empty one, at the very beginning of the history. */
  lemma EmptyAnswer(w: World, p: Paging)
    requires Faithful(w) && OldestAnchor(w.phone(p.anchor).messages).None?
    ensures w.phone(p.anchor).messages == [] && Position(w.h, p.anchor) == 0
  {
    var batch := w.phone(p.anchor);
    var lo: nat :| AnswersFrom(w.h, p.anchor, w.cfg.batchSize, batch, lo);
    AnswerMovesAnchor(w.h, p.anchor, w.cfg.batchSize, batch, lo);
  }

  /** Any other answer moves the frontier back, and the guard stays quiet. */
  lemma FullAnswer(w: World, p: Paging)
    requires Faithful(w) && GuardQuiet(w.h, p) && OldestAnchor(w.phone(p.anchor).messages).Some?
    ensures var batch := w.phone(p.anchor);
            var a := OldestAnchor(batch.messages).value;
            && a.id != "" && batch.messages != []
            && Position(w.h, a) < Position(w.h, p.anchor)
            && (!batch.moreRemain ==> Position(w.h, a) == 0)
            && NextPaging(p, a, batch).repeats < STUCK_K
            && GuardQuiet(w.h, NextPaging(p, a, batch))
  {
    var batch := w.phone(p.anchor);
    var lo: nat :| AnswersFrom(w.h, p.anchor, w.cfg.batchSize, batch, lo);
    AnswerMovesAnchor(w.h, p.anchor, w.cfg.batchSize, batch, lo);
    assert Keyed(w.h[lo]);
  }

  /** A turn that fetches and saves does what an undisturbed one does, up to its decision. */
  lemma SavingTurn(w: World, t: Task, p: Paging, db: Db, r: Round)
    requires Faithful(w) && GuardQuiet(w.h, p) && Records(w, t, p, r) && !r.cancelled && r.ready
    ensures var batch := w.phone(p.anchor);
            var a := OldestAnchor(batch.messages);
            Turn(t, p, db, r)
            == if a.None? then Complete(db, t.chat, p.anchor, false, r)
               else Decide(t, NextPaging(p, a.value, batch), Saved(w, t, p, db, a.value), batch.moreRemain, r)
  {
    var a := OldestAnchor(w.phone(p.anchor).messages);
    if a.None? {
      EmptyAnswer(w, p);
      assert InsertAll(db.rows, []) == db.rows;
    } else {
      FullAnswer(w, p);
    }
  }

  function UsableAnchor(a: Anchor): Option<Anchor> {
    if a.id == "" then None else Some(a)
  }

  lemma AnswerMovesBack(w: World, a: Anchor)
    requires Faithful(w) && OldestAnchor(w.phone(a).messages).Some?
    ensures Position(w.h, OldestAnchor(w.phone(a).messages).value) < Position(w.h, a)
  {
    FullAnswer(w, Paging(a, 0, "", 0));
  }

  /**
   What a job reaches from an anchor, a count, the stored rows and the recorded counter alone:
   no loop variables, cursor flags or guard state.
   */
  ghost function Outlook(w: World, t: Task, a: Anchor, fetched: u32, rows: seq<MessageRow>, counter: int): View
    requires Faithful(w)
    decreases Position(w.h, a)
  {
    var batch := w.phone(a);
    match OldestAnchor(batch.messages)
    case None => View(Ended(Done), rows, UsableAnchor(a), false, true, counter)
    case Some(next) =>
      var total := SaturatingAdd(fetched, AsU32(|batch.messages|));
      var stored := InsertAll(rows, w.sink(batch.messages));
      match EvaluateTarget(t.target, total, Some(next.tsMs), batch.moreRemain, t.backstop)
      case StepDone => View(Ended(Done), stored, UsableAnchor(next), batch.moreRemain, !batch.moreRemain, total)
      case StepParked => View(Ended(Parked), stored, UsableAnchor(next), batch.moreRemain, !batch.moreRemain, total)
      case Continue =>
        AnswerMovesBack(w, a);
        Outlook(w, t, next, total, stored, total)
  }

  ghost function OutlookAt(w: World, t: Task, p: Paging, db: Db): View
    requires Faithful(w) && t.job < |db.jobs|
  {
    Outlook(w, t, p.anchor, p.fetched, db.rows, db.jobs[t.job].fetched)
  }

  /** Where an undisturbed turn leads: to the end of the run, or on from the next anchor. */
  lemma DrainStep(w: World, t: Task, p: Paging, db: Db)
    requires Faithful(w) && GuardQuiet(w.h, p)
    ensures var batch := w.phone(p.anchor);
            var a := OldestAnchor(batch.messages);
            Drain(w, t, p, db)
            == if a.None? then Run(Ended(Done), Upserted(db, t.chat, p.anchor, false, true, Some(0)))
               else
                 var next, saved := NextPaging(p, a.value, batch), Saved(w, t, p, db, a.value);
                 match EvaluateTarget(t.target, next.fetched, Some(a.value.tsMs), batch.moreRemain, t.backstop)
                 case StepDone =>
                   Run(Ended(Done), Upserted(saved, t.chat, a.value, batch.moreRemain, !batch.moreRemain, Some(0)))
                 case StepParked => Run(Ended(Parked), saved)
                 case Continue => Drain(w, t, next, saved)
  {
    assert Records(w, t, p, Quiet(w, p.anchor));
    SavingTurn(w, t, p, db, Quiet(w, p.anchor));
  }

  lemma ObserveUpserted(outcome: Outcome, db: Db, chat: string, job: nat, a: Anchor, more: bool, exhausted: bool,
                        at: Option<int>)
    requires job < |db.jobs|
    ensures Observe(Run(outcome, Upserted(db, chat, a, more, exhausted, at)), chat, job)
         == View(outcome, db.rows, UsableAnchor(a), more, exhausted, db.jobs[job].fetched)
  {
  }

  lemma ObserveRecorded(outcome: Outcome, db: Db, chat: string, job: nat, a: Anchor, more: bool, exhausted: bool,
                        fetched: u32)
    requires job < |db.jobs|
    ensures Observe(Run(outcome, Recorded(db, job, chat, a, more, exhausted, fetched)), chat, job)
         == View(outcome, db.rows, UsableAnchor(a), more, exhausted, fetched)
  {
  }

  /** An undisturbed run reaches exactly that. */
  lemma {:induction false} DrainReachesOutlook(w: World, t: Task, p: Paging, db: Db)
    requires Faithful(w) && GuardQuiet(w.h, p) && t.job < |db.jobs|
    ensures Observe(Drain(w, t, p, db), t.chat, t.job) == OutlookAt(w, t, p, db)
    decreases Position(w.h, p.anchor)
  {
    DrainStep(w, t, p, db);
    var batch := w.phone(p.anchor);
    if OldestAnchor(batch.messages).None? {
      ObserveUpserted(Ended(Done), db, t.chat, t.job, p.anchor, false, true, Some(0));
      return;
    }
    var a := OldestAnchor(batch.messages).value;
    FullAnswer(w, p);
    var next, saved := NextPaging(p, a, batch), Saved(w, t, p, db, a);
    var stored := db.(rows := InsertAll(db.rows, w.sink(batch.messages)));
    match EvaluateTarget(t.target, next.fetched, Some(a.tsMs), batch.moreRemain, t.backstop) {
      case StepDone =>
        ObserveUpserted(Ended(Done), saved, t.chat, t.job, a, batch.moreRemain, !batch.moreRemain, Some(0));
      case StepParked =>
        ObserveRecorded(Ended(Parked), stored, t.chat, t.job, a, batch.moreRemain, !batch.moreRemain, next.fetched);
      case Continue =>
        DrainReachesOutlook(w, t, next, saved);
    }
  }

  /** The stored tables hold everything the loop needs to go on from where it is. */
  ghost predicate Resumable(w: World, t: Task, p: Paging, db: Db)
    requires Faithful(w)
  {
    && GuardQuiet(w.h, p)
    && t.backstop == w.cfg.backstop
    && t.job < |db.jobs|
    && var row := db.jobs[t.job];
    && row.chat == t.chat
    && ParseTarget(row.targetKind, row.targetValue) == Some(t.target)
    && AsU32(if row.fetched < 0 then 0 else row.fetched) == p.fetched
    && !ResolveAnchor(db, t.chat).Unanchored?
    && ResolveAnchor(db, t.chat).anchor == p.anchor
    && var c := GetCursor(db, t.chat);
    && (c.Some? && c.value.exhausted ==>
          CursorAnchor(c.value).Some? && !c.value.moreRemain && Position(w.h, p.anchor) == 0)
  }

  /** Starting the job over from resumable tables reaches what going on would have. */
  lemma RestartIsContinue(w: World, t: Task, p: Paging, db: Db)
    requires Faithful(w) && Resumable(w, t, p, db)
    ensures Observe(Uninterrupted(w, db, t.job), t.chat, t.job) == OutlookAt(w, t, p, db)
  {
    var opening := Begin(db, t.job, w.cfg);
    if opening.Open? {
      assert opening.task == t;
      DrainReachesOutlook(w, t, opening.paging, db);
    } else if OldestAnchor(w.phone(p.anchor).messages).Some? {
      AnswerMovesBack(w, p.anchor);
    }
  }

  /** A run that ends this way is queued again. */
  predicate Requeues(outcome: Outcome) {
    outcome.Killed? || StatusFor(outcome.end) == Queued
  }

  /** After its answer is recorded, the job can be resumed from the next anchor. */
  lemma SavedIsResumable(w: World, t: Task, p: Paging, db: Db, a: Anchor)
    requires Faithful(w) && Resumable(w, t, p, db)
    requires OldestAnchor(w.phone(p.anchor).messages) == Some(a)
    ensures Resumable(w, t, NextPaging(p, a, w.phone(p.anchor)), Saved(w, t, p, db, a))
  {
    FullAnswer(w, p);
    var saved := Saved(w, t, p, db, a);
    assert CursorAnchor(saved.cursors[t.chat]) == Some(a);
  }

  /** A stop at the top of the loop writes the anchor back; the job can be resumed from it. */
  lemma StoppedIsResumable(w: World, t: Task, p: Paging, db: Db)
    requires Faithful(w) && Resumable(w, t, p, db)
    ensures Resumable(w, t, p, Upserted(db, t.chat, p.anchor, true, false, None))
  {
    var stopped := Upserted(db, t.chat, p.anchor, true, false, None);
    assert CursorAnchor(stopped.cursors[t.chat]) == UsableAnchor(p.anchor);
  }

  predicate Exhausted(db: Db, chat: string) {
    chat in db.cursors && db.cursors[chat].exhausted
  }

  /** The job is done with nothing more to fetch, or a further run would go on from the recorded
      anchor. */
  ghost predicate Ends(w: World, t: Task, at: Paging, outcome: Outcome, db: Db)
    requires Faithful(w) && t.job < |db.jobs|
  {
    var row := db.jobs[t.job];
    if Exhausted(db, t.chat)
    then outcome == Ended(Done) && row.chat == t.chat && ParseTarget(row.targetKind, row.targetValue).Some?
    else
      && Resumable(w, t, at, db)
      && ResolveAnchor(db, t.chat).FromCursor?
      && OldestAnchor(w.phone(at.anchor).messages).Some?
  }

  /** A turn led on, or stopped where the job can be resumed with the same outlook, or ended the
      job with the view the outlook predicted. */
  ghost predicate Resumes(w: World, t: Task, p: Paging, db: Db, turned: Turned, at: Paging)
    requires Faithful(w) && t.job < |db.jobs|
  {
    && (turned.Next? ==> at == turned.paging)
    && (if turned.Next? || Requeues(turned.outcome)
        then Resumable(w, t, at, turned.db) && OutlookAt(w, t, at, turned.db) == OutlookAt(w, t, p, db)
        else
          && Observe(Run(turned.outcome, turned.db), t.chat, t.job) == OutlookAt(w, t, p, db)
          && t.job < |turned.db.jobs| && Ends(w, t, at, turned.outcome, turned.db))
  }

  /** Where more remains, the phone has something to answer. */
  lemma MoreToAnswer(w: World, p: Paging)
    requires Faithful(w) && OldestAnchor(w.phone(p.anchor).messages).Some? && w.phone(p.anchor).moreRemain
    ensures OldestAnchor(w.phone(OldestAnchor(w.phone(p.anchor).messages).value).messages).Some?
  {
    var batch := w.phone(p.anchor);
    var lo: nat :| AnswersFrom(w.h, p.anchor, w.cfg.batchSize, batch, lo);
    AnswerMovesAnchor(w.h, p.anchor, w.cfg.batchSize, batch, lo);
    var a := OldestAnchor(batch.messages).value;
    if OldestAnchor(w.phone(a).messages).None? {
      EmptyAnswer(w, Paging(a, 0, "", 0));
    }
  }

  /** A recorded page whose target is met. */
  lemma DoneResumes(w: World, t: Task, p: Paging, db: Db, r: Round, a: Anchor)
    requires Faithful(w) && Resumable(w, t, p, db) && Records(w, t, p, r)
    requires OldestAnchor(w.phone(p.anchor).messages) == Some(a)
    requires var batch := w.phone(p.anchor);
             EvaluateTarget(t.target, NextPaging(p, a, batch).fetched, Some(a.tsMs), batch.moreRemain,
                            t.backstop).StepDone?
    ensures var batch, saved := w.phone(p.anchor), Saved(w, t, p, db, a);
            Resumes(w, t, p, db, Complete(saved, t.chat, a, batch.moreRemain, r), NextPaging(p, a, batch))
  {
    var batch, saved := w.phone(p.anchor), Saved(w, t, p, db, a);
    var next := NextPaging(p, a, batch);
    SavedIsResumable(w, t, p, db, a);
    FullAnswer(w, p);
    if r.stamp.Ok? {
      DoneAt(w, t, p, db, a, Some(r.now));
    } else if r.stamp.Refused? {
      var stored := db.(rows := InsertAll(db.rows, w.sink(batch.messages)));
      ObserveRecorded(Ended(Done), stored, t.chat, t.job, a, batch.moreRemain, !batch.moreRemain, next.fetched);
      if batch.moreRemain {
        MoreToAnswer(w, p);
      }
    } else {
      NothingAtStart(w, a);
    }
  }

  /** The completion write after a record changes nothing that a restart reads. */
  lemma DoneAt(w: World, t: Task, p: Paging, db: Db, a: Anchor, at: Option<int>)
    requires Faithful(w) && Resumable(w, t, p, db)
    requires OldestAnchor(w.phone(p.anchor).messages) == Some(a)
    ensures var batch, saved := w.phone(p.anchor), Saved(w, t, p, db, a);
            var done := Upserted(saved, t.chat, a, batch.moreRemain, !batch.moreRemain, at);
            && Ends(w, t, NextPaging(p, a, batch), Ended(Done), done)
            && Observe(Run(Ended(Done), done), t.chat, t.job)
            == View(Ended(Done), saved.rows, UsableAnchor(a), batch.moreRemain, !batch.moreRemain,
                    NextPaging(p, a, batch).fetched)
  {
    var batch, saved := w.phone(p.anchor), Saved(w, t, p, db, a);
    SavedIsResumable(w, t, p, db, a);
    FullAnswer(w, p);
    ObserveUpserted(Ended(Done), saved, t.chat, t.job, a, batch.moreRemain, !batch.moreRemain, at);
    var done := Upserted(saved, t.chat, a, batch.moreRemain, !batch.moreRemain, at);
    assert CursorAnchor(done.cursors[t.chat]) == Some(a);
    if batch.moreRemain {
      MoreToAnswer(w, p);
      assert Resumable(w, t, NextPaging(p, a, batch), done);
    }
  }

  /** At the beginning of the history the phone has nothing to answer. */
  lemma NothingAtStart(w: World, a: Anchor)
    requires Faithful(w) && Position(w.h, a) == 0
    ensures OldestAnchor(w.phone(a).messages).None?
  {
    if OldestAnchor(w.phone(a).messages).Some? {
      AnswerMovesBack(w, a);
    }
  }

  /** A recorded page whose target is out of reach for now. */
  lemma ParkedResumes(w: World, t: Task, p: Paging, db: Db, r: Round, a: Anchor)
    requires Faithful(w) && Resumable(w, t, p, db) && OldestAnchor(w.phone(p.anchor).messages) == Some(a)
    requires var batch := w.phone(p.anchor);
             EvaluateTarget(t.target, NextPaging(p, a, batch).fetched, Some(a.tsMs), batch.moreRemain,
                            t.backstop).StepParked?
    ensures Resumes(w, t, p, db, Stop(Ended(Parked), Saved(w, t, p, db, a)), NextPaging(p, a, w.phone(p.anchor)))
  {
    var batch := w.phone(p.anchor);
    var stored := db.(rows := InsertAll(db.rows, w.sink(batch.messages)));
    ObserveRecorded(Ended(Parked), stored, t.chat, t.job, a, batch.moreRemain, !batch.moreRemain,
                    NextPaging(p, a, batch).fetched);
    SavedIsResumable(w, t, p, db, a);
    FullAnswer(w, p);
    MoreToAnswer(w, p);
  }

  /** A recorded page: the job ends where it would have, or goes on, or can be resumed. */
  lemma RecordedResumes(w: World, t: Task, p: Paging, db: Db, r: Round) returns (at: Paging)
    requires Faithful(w) && Resumable(w, t, p, db) && Records(w, t, p, r) && !r.cancelled && r.ready
    ensures Resumes(w, t, p, db, Turn(t, p, db, r), at)
  {
    SavingTurn(w, t, p, db, r);
    var batch := w.phone(p.anchor);
    if OldestAnchor(batch.messages).None? {
      at := p;
      EmptyResumes(w, t, p, db, r);
    } else {
      var a := OldestAnchor(batch.messages).value;
      at := NextPaging(p, a, batch);
      match EvaluateTarget(t.target, at.fetched, Some(a.tsMs), batch.moreRemain, t.backstop) {
        case StepDone => DoneResumes(w, t, p, db, r, a);
        case StepParked => ParkedResumes(w, t, p, db, r, a);
        case Continue => SavedIsResumable(w, t, p, db, a);
      }
    }
  }

  /** The empty answer at the beginning of the history. */
  lemma EmptyResumes(w: World, t: Task, p: Paging, db: Db, r: Round)
    requires Faithful(w) && Resumable(w, t, p, db) && !r.stamp.Refused?
    requires OldestAnchor(w.phone(p.anchor).messages).None?
    ensures Resumes(w, t, p, db, Complete(db, t.chat, p.anchor, false, r), p)
  {
    ObserveUpserted(Ended(Done), db, t.chat, t.job, p.anchor, false, true, Some(r.now));
  }

  lemma {:induction false} InsertAllTwice(rows: seq<MessageRow>, a: seq<MessageRow>, b: seq<MessageRow>)
    ensures InsertAll(rows, a + b) == InsertAll(InsertAll(rows, a), b)
    decreases |a|
  {
    if a == [] {
      assert a + b == b;
    } else {
      assert (a + b)[0] == a[0] && (a + b)[1..] == a[1..] + b;
      InsertAllTwice(InsertIfNew(rows, a[0]), a[1..], b);
    }
  }

  lemma {:induction false} InsertStored(rows: seq<MessageRow>, more: seq<MessageRow>)
    requires forall row :: row in more ==> IsStored(rows, row.id)
    ensures InsertAll(rows, more) == rows
    decreases |more|
  {
    if more == [] {
    } else {
      assert more[0] in more && forall row :: row in more[1..] ==> row in more;
      InsertStored(rows, more[1..]);
    }
  }

  /** Storing a front part first makes no difference. */
  lemma InsertFrontFirst(rows: seq<MessageRow>, front: seq<MessageRow>, all: seq<MessageRow>)
    requires front <= all
    ensures InsertAll(InsertAll(rows, front), all) == InsertAll(rows, all)
  {
    var rest := all[|front|..];
    assert all == front + rest;
    InsertAllTwice(rows, front, rest);
    InsertAllTwice(InsertAll(rows, front), front, rest);
    forall row | row in front ensures IsStored(InsertAll(rows, front), row.id) {
      assert IsStored(front, row.id);
    }
    InsertStored(InsertAll(rows, front), front);
  }

  /** A front part of the next answer's rows does not change the outlook. */
  lemma OutlookIgnoresFront(w: World, t: Task, a: Anchor, fetched: u32, rows: seq<MessageRow>, counter: int,
                            front: seq<MessageRow>)
    requires Faithful(w) && front <= w.sink(w.phone(a).messages)
    ensures Outlook(w, t, a, fetched, InsertAll(rows, front), counter) == Outlook(w, t, a, fetched, rows, counter)
  {
    InsertFrontFirst(rows, front, w.sink(w.phone(a).messages));
    if OldestAnchor(w.phone(a).messages).None? {
      EmptyAnswer(w, Paging(a, 0, "", 0));
      assert InsertAll(rows, []) == rows;
    }
  }

  /** A death before the record: the job starts over from the same cursor. */
  lemma EarlyDeathResumes(w: World, t: Task, p: Paging, db: Db, r: Round)
    requires Faithful(w) && Resumable(w, t, p, db) && DiesBeforeRecord(w, t, p, db, r) && !r.cancelled && r.ready
    ensures Resumes(w, t, p, db, Turn(t, p, db, r), p)
  {
    var stored := db.(rows := InsertAll(db.rows, r.kept));
    if r.persist.Ok? {
      FullAnswer(w, p);
    }
    assert Turn(t, p, db, r) == Stop(Killed, stored);
    assert r.kept == [] ==> stored == db;
    assert ResolveAnchor(stored, t.chat) == ResolveAnchor(db, t.chat);
    OutlookIgnoresFront(w, t, p.anchor, p.fetched, db.rows, db.jobs[t.job].fetched, r.kept);
  }

  lemma TurnResumes(w: World, t: Task, p: Paging, db: Db, r: Round) returns (at: Paging)
    requires Faithful(w) && Resumable(w, t, p, db) && Reliable(w, t, p, db, r)
    ensures Resumes(w, t, p, db, Turn(t, p, db, r), at)
  {
    at := p;
    if r.cancelled {
      StoppedIsResumable(w, t, p, db);
    } else if r.ready && r.answer.Page? {
      if Records(w, t, p, r) {
        at := RecordedResumes(w, t, p, db, r);
      } else {
        EarlyDeathResumes(w, t, p, db, r);
      }
    }
  }

  /** A whole run from a resumable state: final, or resumable with the same outlook. */
  lemma {:induction false} PagesResume(w: World, t: Task, p: Paging, db: Db, rounds: seq<Round>) returns (at: Paging)
    requires Faithful(w) && Resumable(w, t, p, db) && ReliableRounds(w, t, p, db, rounds)
    ensures var run := Pages(t, p, db, rounds);
            if Requeues(run.outcome)
            then Resumable(w, t, at, run.db) && OutlookAt(w, t, at, run.db) == OutlookAt(w, t, p, db)
            else
              && Observe(run, t.chat, t.job) == OutlookAt(w, t, p, db)
              && t.job < |run.db.jobs| && Ends(w, t, at, run.outcome, run.db)
    decreases |rounds|
  {
    at := p;
    if rounds == [] {
    } else {
      at := TurnResumes(w, t, p, db, rounds[0]);
      var turned := Turn(t, p, db, rounds[0]);
      if turned.Next? {
        at := PagesResume(w, t, turned.paging, turned.db, rounds[1..]);
      }
    }
  }

  /** A job queued again and claimed again: its status is written twice, and nothing else. */
  function Reclaimed(db: Db, job: nat): Db {
    Marked(Marked(db, job, Queued), job, Running)
  }

  /** One claim of a job: the rounds it met, and whether its status could be written at the end. */
  datatype Attempt = Attempt(rounds: seq<Round>, markOk: bool)

  /** The job does not reach a final status: its run says so, or the status write is lost. */
  predicate QueuedAgain(outcome: Outcome, markOk: bool) {
    Requeues(outcome) || !markOk
  }

  /** A job run over and over, queued again after each cut, and the last time undisturbed. */
  ghost function CutAndResumed(w: World, db: Db, job: nat, attempts: seq<Attempt>): Run
    requires Faithful(w) && job < |db.jobs|
    decreases |attempts|
  {
    if attempts == [] then Uninterrupted(w, db, job)
    else
      var run := Process(db, job, w.cfg, attempts[0].rounds);
      if QueuedAgain(run.outcome, attempts[0].markOk) && job < |run.db.jobs| then
        CutAndResumed(w, Reclaimed(run.db, job), job, attempts[1..])
      else run
  }

  /** The rounds are reliable, and the status write of a run that ends its job is lost only where
      nothing more remains. */
  ghost predicate ReliableAttempt(w: World, db: Db, job: nat, attempt: Attempt)
    requires Faithful(w) && job < |db.jobs|
  {
    var run := Process(db, job, w.cfg, attempt.rounds);
    match Begin(db, job, w.cfg)
    case Open(t, p) =>
      && ReliableRounds(w, t, p, db, attempt.rounds)
      && (!Requeues(run.outcome) && !attempt.markOk ==> Exhausted(run.db, t.chat))
    case Finish(_) => true
  }

  ghost predicate ReliableAttempts(w: World, db: Db, job: nat, attempts: seq<Attempt>)
    requires Faithful(w) && job < |db.jobs|
    decreases |attempts|
  {
    attempts == [] ||
    (var run := Process(db, job, w.cfg, attempts[0].rounds);
     && ReliableAttempt(w, db, job, attempts[0])
     && (QueuedAgain(run.outcome, attempts[0].markOk) && job < |run.db.jobs| ==>
           ReliableAttempts(w, Reclaimed(run.db, job), job, attempts[1..])))
  }

  /** A job that opens its paging loop starts from a resumable state. */
  lemma OpensResumable(w: World, db: Db, job: nat)
    requires Faithful(w) && job < |db.jobs| && Begin(db, job, w.cfg).Open?
    ensures Resumable(w, Begin(db, job, w.cfg).task, Begin(db, job, w.cfg).paging, db)
    ensures Begin(db, job, w.cfg).task.chat == db.jobs[job].chat && Begin(db, job, w.cfg).task.job == job
  {
  }

  lemma ReclaimKeepsResumable(w: World, t: Task, p: Paging, db: Db)
    requires Faithful(w) && Resumable(w, t, p, db)
    ensures Resumable(w, t, p, Reclaimed(db, t.job))
    ensures OutlookAt(w, t, p, Reclaimed(db, t.job)) == OutlookAt(w, t, p, db)
  {
  }

  /** What an undisturbed run reaches lies below its starting anchor, unless there is nothing. */
  lemma {:induction false} OutlookMovesBack(w: World, t: Task, a: Anchor, fetched: u32, rows: seq<MessageRow>,
                                            counter: int)
    requires Faithful(w) && OldestAnchor(w.phone(a).messages).Some?
    ensures var reached := Outlook(w, t, a, fetched, rows, counter).anchor;
            reached.Some? && Position(w.h, reached.value) < Position(w.h, a)
    decreases Position(w.h, a)
  {
    var batch := w.phone(a);
    var next := OldestAnchor(batch.messages).value;
    FullAnswer(w, Paging(a, 0, "", 0));
    var total := SaturatingAdd(fetched, AsU32(|batch.messages|));
    var stored := InsertAll(rows, w.sink(batch.messages));
    if !EvaluateTarget(t.target, total, Some(next.tsMs), batch.moreRemain, t.backstop).Continue?
       || OldestAnchor(w.phone(next).messages).None? {
    } else {
      OutlookMovesBack(w, t, next, total, stored, total);
    }
  }

  /** The two flags an undisturbed run leaves are opposite, and a parked one has more to fetch. */
  lemma {:induction false} OutlookFlags(w: World, t: Task, a: Anchor, fetched: u32, rows: seq<MessageRow>, counter: int)
    requires Faithful(w)
    ensures var v := Outlook(w, t, a, fetched, rows, counter);
            v.exhausted == !v.moreRemain && (v.outcome == Ended(Parked) ==> v.moreRemain)
    decreases Position(w.h, a)
  {
    var batch := w.phone(a);
    if OldestAnchor(batch.messages).None? {
    } else {
      var next := OldestAnchor(batch.messages).value;
      var total := SaturatingAdd(fetched, AsU32(|batch.messages|));
      AnswerMovesBack(w, a);
      if EvaluateTarget(t.target, total, Some(next.tsMs), batch.moreRemain, t.backstop).Continue? {
        OutlookFlags(w, t, next, total, InsertAll(rows, w.sink(batch.messages)), total);
      }
    }
  }

  /** Where a run ended its job, another one changes nothing exactly when nothing more remains. */
  lemma AgainExactly(w: World, t: Task, at: Paging, run: Run)
    requires Faithful(w) && t.job < |run.db.jobs| && !Requeues(run.outcome) && Ends(w, t, at, run.outcome, run.db)
    ensures Observe(Uninterrupted(w, Reclaimed(run.db, t.job), t.job), t.chat, t.job) == Observe(run, t.chat, t.job)
            <==> Exhausted(run.db, t.chat)
  {
    var again := Reclaimed(run.db, t.job);
    if Exhausted(run.db, t.chat) {
      assert Begin(again, t.job, w.cfg) == Finish(Done);
    } else {
      ReclaimKeepsResumable(w, t, at, run.db);
      RestartIsContinue(w, t, at, again);
      OutlookMovesBack(w, t, at.anchor, at.fetched, again.rows, again.jobs[t.job].fetched);
    }
  }

  /**
   When the status write of a run that ended its job is lost, and the job is queued again, the job
   ends as it would have exactly when nothing more remains: never when it was parked.
   */
  lemma LostStatusExactly(w: World, t: Task, p: Paging, db: Db, rounds: seq<Round>)
    requires Faithful(w) && Resumable(w, t, p, db) && ReliableRounds(w, t, p, db, rounds)
    requires !Requeues(Pages(t, p, db, rounds).outcome)
    ensures t.job < |Pages(t, p, db, rounds).db.jobs|
    ensures var run := Pages(t, p, db, rounds);
            var ended := Observe(run, t.chat, t.job);
            && ended == OutlookAt(w, t, p, db)
            && (Observe(Uninterrupted(w, Reclaimed(run.db, t.job), t.job), t.chat, t.job) == ended
                <==> !ended.moreRemain)
            && (run.outcome == Ended(Parked) ==> ended.moreRemain)
  {
    var at := PagesResume(w, t, p, db, rounds);
    AgainExactly(w, t, at, Pages(t, p, db, rounds));
    OutlookFlags(w, t, p.anchor, p.fetched, db.rows, db.jobs[t.job].fetched);
  }

  /** An attempt that opens its loop and does not end the job leaves it with the outlook it had. */
  lemma AttemptResumes(w: World, db: Db, job: nat, attempt: Attempt)
    requires Faithful(w) && job < |db.jobs| && ReliableAttempt(w, db, job, attempt)
    ensures var run := Process(db, job, w.cfg, attempt.rounds);
            && job < |run.db.jobs| && run.db.jobs[job].chat == db.jobs[job].chat
            && Observe(if QueuedAgain(run.outcome, attempt.markOk) then Uninterrupted(w, Reclaimed(run.db, job), job)
                       else run, db.jobs[job].chat, job)
            == Observe(Uninterrupted(w, db, job), db.jobs[job].chat, job)
  {
    var opening := Begin(db, job, w.cfg);
    var run := Process(db, job, w.cfg, attempt.rounds);
    if opening.Open? {
      OpensResumable(w, db, job);
      var t, p := opening.task, opening.paging;
      RestartIsContinue(w, t, p, db);
      var at := PagesResume(w, t, p, db, attempt.rounds);
      if Requeues(run.outcome) {
        var again := Reclaimed(run.db, job);
        ReclaimKeepsResumable(w, t, at, run.db);
        RestartIsContinue(w, t, at, again);
      } else {
        AgainExactly(w, t, at, run);
      }
    } else {
      assert Begin(Reclaimed(db, job), job, w.cfg) == opening;
    }
  }

  /**
   Resume equals uninterrupted: whatever the target, however often the job is stopped, deferred,
   killed or loses its status write where nothing more remains, and is queued again, it ends the
   same way, with the same rows, anchor, flags and count as a single run that nothing disturbs.
   */
  lemma {:induction false} ResumeEqualsUninterrupted(w: World, db: Db, job: nat, attempts: seq<Attempt>)
    requires Faithful(w) && job < |db.jobs| && ReliableAttempts(w, db, job, attempts)
    ensures var chat := db.jobs[job].chat;
            Observe(CutAndResumed(w, db, job, attempts), chat, job) == Observe(Uninterrupted(w, db, job), chat, job)
    decreases |attempts|
  {
    if attempts == [] {
    } else {
      var run := Process(db, job, w.cfg, attempts[0].rounds);
      AttemptResumes(w, db, job, attempts[0]);
      if QueuedAgain(run.outcome, attempts[0].markOk) {
        ResumeEqualsUninterrupted(w, Reclaimed(run.db, job), job, attempts[1..]);
      }
    }
  }

  // ----- a death before the completion write -----

  /**
   Killed between the record of a batch that meets the target and the completion write, and
   queued again, the job ends as an uninterrupted run would exactly when nothing more remains:
   otherwise it fetches on past its target.
   */
  lemma StampDeathExactly(w: World, t: Task, p: Paging, db: Db, a: Anchor)
    requires Faithful(w) && Resumable(w, t, p, db)
    requires OldestAnchor(w.phone(p.anchor).messages) == Some(a)
    requires var batch := w.phone(p.anchor);
             EvaluateTarget(t.target, NextPaging(p, a, batch).fetched, Some(a.tsMs), batch.moreRemain,
                            t.backstop).StepDone?
    ensures Turn(t, p, db, Quiet(w, p.anchor).(stamp := Crash)) == Stop(Killed, Saved(w, t, p, db, a))
    ensures var died := Reclaimed(Saved(w, t, p, db, a), t.job);
            Observe(Uninterrupted(w, died, t.job), t.chat, t.job) == OutlookAt(w, t, p, db)
            <==> !w.phone(p.anchor).moreRemain
  {
    var batch, saved := w.phone(p.anchor), Saved(w, t, p, db, a);
    var next := NextPaging(p, a, batch);
    SavedIsResumable(w, t, p, db, a);
    ReclaimKeepsResumable(w, t, next, saved);
    RestartIsContinue(w, t, next, Reclaimed(saved, t.job));
    FullAnswer(w, p);
    if batch.moreRemain {
      MoreToAnswer(w, p);
      OutlookMovesBack(w, t, a, next.fetched, saved.rows, saved.jobs[t.job].fetched);
    } else {
      NothingAtStart(w, a);
    }
  }
}
