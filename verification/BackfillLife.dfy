/**
 The life of a chat: runs of jobs, triggers, seedings, live messages and status writes, in any
 order. Once the chat has a usable cursor, nothing of it leaves a gap, and what a finished job was
 asked for stays stored.
 */
module BackfillLife {
  import opened Wrappers
  import opened History
  import opened PhoneHistory
  import opened BackfillStore
  import opened Backfill
  import opened CursorWriters
  import opened BackfillNoGaps

  /** What happens to the tables over the life of a chat. */
  datatype Event =
    | JobRun(job: nat, cfg: Config, rounds: seq<Round>)
    | TriggerOn(triggered: string)
    | SeedOf(seeded: string, anchor: Anchor)
    | LiveRow(row: MessageRow)
    | Enqueue(queued: JobRow)
    | StatusWrite(marked: nat, status: Status)

  function Apply(db: Db, e: Event): Db {
    match e
    case JobRun(job, cfg, rounds) => if job < |db.jobs| then Process(db, job, cfg, rounds).db else db
    case TriggerOn(chat) => Triggered(db, chat)
    case SeedOf(chat, a) => Seeded(db, chat, a)
    case LiveRow(row) => db.(rows := InsertIfNew(db.rows, row))
    case Enqueue(row) => db.(jobs := db.jobs + [row])
    case StatusWrite(job, status) => Marked(db, job, status)
  }

  function ApplyAll(db: Db, events: seq<Event>): Db
    decreases |events|
  {
    if events == [] then db else ApplyAll(Apply(db, events[0]), events[1..])
  }

  /** Every run of a job of `chat` met an honest phone and an honest sink. */
  ghost predicate HonestEvents(h: seq<WebMessageInfo>, chat: string, db: Db, events: seq<Event>)
    requires ValidHistory(h)
    decreases |events|
  {
    events == [] ||
    (var e := events[0];
     && (e.JobRun? && e.job < |db.jobs| && db.jobs[e.job].chat == chat ==> HonestRun(h, db, e.job, e.cfg, e.rounds))
     && HonestEvents(h, chat, Apply(db, e), events[1..]))
  }

  /** Rows are only added, and the chat's cursor stays as it is. */
  ghost predicate LeavesChat(db: Db, db': Db, chat: string) {
    db.rows <= db'.rows && GetCursor(db', chat) == GetCursor(db, chat)
  }

  lemma CompleteLeavesOtherChats(before: Db, db: Db, own: string, a: Anchor, moreRemain: bool, r: Round, chat: string)
    requires own != chat && LeavesChat(before, db, chat)
    ensures LeavesChat(before, Complete(db, own, a, moreRemain, r).db, chat)
  {
  }

  lemma MoveLeavesOtherChats(before: Db, t: Task, p: Paging, db: Db, oldest: Anchor, batch: HistoryBatch, r: Round,
                             chat: string)
    requires t.chat != chat && LeavesChat(before, db, chat)
    ensures LeavesChat(before, Move(t, p, db, oldest, batch, r).db, chat)
  {
    var fetched := SaturatingAdd(p.fetched, AsU32(|batch.messages|));
    var exhausted := |batch.messages| == 0 || !batch.moreRemain;
    var recorded := Recorded(db, t.job, t.chat, oldest, batch.moreRemain, exhausted, fetched);
    assert LeavesChat(before, recorded, chat);
    CompleteLeavesOtherChats(before, db, t.chat, oldest, batch.moreRemain, r, chat);
    CompleteLeavesOtherChats(before, recorded, t.chat, oldest, batch.moreRemain, r, chat);
  }

  lemma TurnLeavesOtherChats(t: Task, p: Paging, db: Db, r: Round, chat: string)
    requires t.chat != chat
    ensures LeavesChat(db, Turn(t, p, db, r).db, chat)
  {
    if !r.cancelled && r.ready && r.answer.Page? {
      var stored := db.(rows := InsertAll(db.rows, r.kept));
      var batch := r.answer.batch;
      var oldest := OldestAnchor(batch.messages);
      assert LeavesChat(db, stored, chat);
      if oldest.None? {
        CompleteLeavesOtherChats(db, stored, t.chat, p.anchor, false, r, chat);
      } else {
        MoveLeavesOtherChats(db, t, p, stored, oldest.value, batch, r, chat);
      }
    }
  }

  lemma {:induction false} PagesLeaveOtherChats(t: Task, p: Paging, db: Db, rounds: seq<Round>, chat: string)
    requires t.chat != chat
    ensures LeavesChat(db, Pages(t, p, db, rounds).db, chat)
    decreases |rounds|
  {
    if rounds == [] {
    } else {
      TurnLeavesOtherChats(t, p, db, rounds[0], chat);
      var turned := Turn(t, p, db, rounds[0]);
      if turned.Next? {
        PagesLeaveOtherChats(t, turned.paging, turned.db, rounds[1..], chat);
      }
    }
  }

  lemma LeftChatStaysCovered(h: seq<WebMessageInfo>, start: nat, db: Db, db': Db, chat: string)
    requires ValidHistory(h) && start <= |h|
    requires CursorCovered(h, start, db, chat) && LeavesChat(db, db', chat)
    ensures CursorCovered(h, start, db', chat)
  {
    var p := Position(h, CursorAnchor(db.cursors[chat]).value);
    forall i | p <= i < start && Storable(h[i])
      ensures IsStored(db'.rows, h[i].id.value)
    {
      var row :| row in db.rows && row.id == h[i].id.value;
      assert row in db'.rows;
    }
  }

  /** The two outside writers never touch the cursor of a chat that has a usable one. */
  lemma UsableCursorUntouched(db: Db, chat: string, a: Anchor)
    requires chat in db.cursors && CursorAnchor(db.cursors[chat]).Some?
    ensures Triggered(db, chat) == db && Seeded(db, chat, a) == db
  {
  }

  lemma EventKeepsCovered(h: seq<WebMessageInfo>, start: nat, chat: string, db: Db, e: Event)
    requires ValidHistory(h) && start <= |h| && CursorCovered(h, start, db, chat)
    requires HonestEvents(h, chat, db, [e])
    ensures CursorCovered(h, start, Apply(db, e), chat)
  {
    match e {
      case JobRun(job, cfg, rounds) =>
        if job < |db.jobs| && db.jobs[job].chat == chat {
          RunLeavesNoGap(h, start, db, job, cfg, rounds);
        } else if job < |db.jobs| {
          var opening := Begin(db, job, cfg);
          if opening.Open? {
            PagesLeaveOtherChats(opening.task, opening.paging, db, rounds, chat);
          }
          LeftChatStaysCovered(h, start, db, Apply(db, e), chat);
        }
      case TriggerOn(other) =>
        UsableCursorUntouched(db, chat, CursorAnchor(db.cursors[chat]).value);
        LeftChatStaysCovered(h, start, db, Apply(db, e), chat);
      case SeedOf(other, a) =>
        UsableCursorUntouched(db, chat, a);
        LeftChatStaysCovered(h, start, db, Apply(db, e), chat);
      case LiveRow(_) => LeftChatStaysCovered(h, start, db, Apply(db, e), chat);
      case Enqueue(_) => LeftChatStaysCovered(h, start, db, Apply(db, e), chat);
      case StatusWrite(_, _) => LeftChatStaysCovered(h, start, db, Apply(db, e), chat);
    }
  }

  lemma {:induction false} PagesKeepRows(t: Task, p: Paging, db: Db, rounds: seq<Round>)
    ensures db.rows <= Pages(t, p, db, rounds).db.rows
    decreases |rounds|
  {
    if rounds == [] {
    } else {
      var turned := Turn(t, p, db, rounds[0]);
      RowsOfTurn(t, p, db, rounds[0]);
      if turned.Next? {
        PagesKeepRows(t, turned.paging, turned.db, rounds[1..]);
      }
    }
  }

  lemma EventKeepsRows(db: Db, e: Event)
    ensures db.rows <= Apply(db, e).rows
  {
    if e.JobRun? && e.job < |db.jobs| {
      var opening := Begin(db, e.job, e.cfg);
      if opening.Open? {
        PagesKeepRows(opening.task, opening.paging, db, e.rounds);
      }
    }
  }

  lemma {:induction false} LifeKeepsRows(db: Db, events: seq<Event>)
    ensures db.rows <= ApplyAll(db, events).rows
    decreases |events|
  {
    if events == [] {
    } else {
      EventKeepsRows(db, events[0]);
      LifeKeepsRows(Apply(db, events[0]), events[1..]);
    }
  }

  lemma ReachedStays(h: seq<WebMessageInfo>, start: nat, rows: seq<MessageRow>, rows': seq<MessageRow>,
                     target: FetchTarget)
    requires ValidHistory(h) && start <= |h| && rows <= rows' && Reached(h, start, rows, target)
    ensures Reached(h, start, rows', target)
  {
    forall i | 0 <= i < start && Storable(h[i]) && IsStored(rows, h[i].id.value)
      ensures IsStored(rows', h[i].id.value)
    {
      var row :| row in rows && row.id == h[i].id.value;
      assert row in rows';
    }
  }

  /** Every run of one of the chat's jobs that ended `Done` is delivered in these rows. */
  ghost predicate AllDelivered(h: seq<WebMessageInfo>, start: nat, chat: string, db: Db, events: seq<Event>,
                               rows: seq<MessageRow>)
    requires ValidHistory(h) && start <= |h|
    decreases |events|
  {
    events == [] ||
    (var e := events[0];
     && (e.JobRun? && e.job < |db.jobs| && db.jobs[e.job].chat == chat ==>
           Delivered(h, start, db, e.job, Process(db, e.job, e.cfg, e.rounds).outcome, rows))
     && AllDelivered(h, start, chat, Apply(db, e), events[1..], rows))
  }

  /**
   No gaps, over the whole life of a chat that once had a usable cursor; and what a run that
   ended `Done` was asked for is stored at the end of it all.
   */
  lemma {:induction false} LifeLeavesNoGap(h: seq<WebMessageInfo>, start: nat, chat: string, db: Db, events: seq<Event>)
    requires ValidHistory(h) && start <= |h| && CursorCovered(h, start, db, chat)
    requires HonestEvents(h, chat, db, events)
    ensures CursorCovered(h, start, ApplyAll(db, events), chat)
    ensures AllDelivered(h, start, chat, db, events, ApplyAll(db, events).rows)
    decreases |events|
  {
    if events == [] {
    } else {
      var e, next := events[0], Apply(db, events[0]);
      EventKeepsCovered(h, start, chat, db, e);
      LifeLeavesNoGap(h, start, chat, next, events[1..]);
      LifeKeepsRows(next, events[1..]);
      if e.JobRun? && e.job < |db.jobs| && db.jobs[e.job].chat == chat {
        var run := Process(db, e.job, e.cfg, e.rounds);
        RunLeavesNoGap(h, start, db, e.job, e.cfg, e.rounds);
        if run.outcome == Ended(Done) {
          var target := ParseTarget(db.jobs[e.job].targetKind, db.jobs[e.job].targetValue).value;
          ReachedStays(h, start, run.db.rows, ApplyAll(db, events).rows, target);
        }
      }
    }
  }

  /**
   A trigger that accepts a fetch leaves a chat whose frontier is covered from its own anchor,
   so that everything after it is covered by `LifeLeavesNoGap`.
   */
  lemma TriggerStartsCovered(h: seq<WebMessageInfo>, db: Db, chat: string)
    requires ValidHistory(h)
    requires chat in db.cursors ==> !db.cursors[chat].exhausted
    requires !ResolveAnchor(db, chat).Unanchored? && ResolveAnchor(db, chat).anchor.id != ""
    ensures CursorCovered(h, Position(h, ResolveAnchor(db, chat).anchor), Triggered(db, chat), chat)
  {
    var a := ResolveAnchor(db, chat).anchor;
    if ResolveAnchor(db, chat).OldestStored? {
      var more := if chat in db.cursors then db.cursors[chat].moreRemain else true;
      WrittenCursorCovered(h, Position(h, a), db, chat, a, more, false, None);
    }
  }

  // ----- the worker's passes -----

  /** The run of a claimed job; nothing when its reads fail. */
  function RunEvents(db: Db, job: nat, cfg: Config, tick: Tick): seq<Event>
    requires job < |db.jobs|
  {
    if BeginReading(db, job, cfg, tick.lookups) == Begin(db, job, cfg) then [JobRun(job, cfg, tick.rounds)] else []
  }

  /** The status write at the end of a pass. */
  function MarkEvents(job: nat, outcome: Outcome, markOk: bool): seq<Event> {
    if outcome.Ended? && markOk then [StatusWrite(job, StatusFor(outcome.end))] else []
  }

  /** A pass of the worker, event by event: the claim, the run, the status write. */
  function EventsOfPass(db: Db, cfg: Config, tick: Tick): seq<Event> {
    var next := NextQueued(db.jobs, 0);
    if !tick.ready || !tick.claimOk || next.None? then []
    else
      var claimed := Marked(db, next.value, Running);
      var run := ProcessReading(claimed, next.value, cfg, tick.lookups, tick.rounds);
      [StatusWrite(next.value, Running)]
      + RunEvents(claimed, next.value, cfg, tick)
      + MarkEvents(next.value, run.outcome, tick.markOk)
  }

  /** One pass of the worker, or something else that happens between two passes. */
  datatype Happening = WorkerPass(cfg: Config, tick: Tick) | Besides(event: Event)

  function EventsOf(db: Db, x: Happening): seq<Event> {
    match x
    case WorkerPass(cfg, tick) => EventsOfPass(db, cfg, tick)
    case Besides(e) => [e]
  }

  function Happen(db: Db, x: Happening): Db {
    match x
    case WorkerPass(cfg, tick) => Work(db, cfg, tick)
    case Besides(e) => Apply(db, e)
  }

  function HappenAll(db: Db, xs: seq<Happening>): Db
    decreases |xs|
  {
    if xs == [] then db else HappenAll(Happen(db, xs[0]), xs[1..])
  }

  function EventsOfAll(db: Db, xs: seq<Happening>): seq<Event>
    decreases |xs|
  {
    if xs == [] then [] else EventsOf(db, xs[0]) + EventsOfAll(Happen(db, xs[0]), xs[1..])
  }

  lemma {:induction false} ApplyAllAppends(db: Db, a: seq<Event>, b: seq<Event>)
    ensures ApplyAll(db, a + b) == ApplyAll(ApplyAll(db, a), b)
    decreases |a|
  {
    if a == [] {
      assert a + b == b;
    } else {
      assert (a + b)[0] == a[0] && (a + b)[1..] == a[1..] + b;
      ApplyAllAppends(Apply(db, a[0]), a[1..], b);
    }
  }

  lemma ApplyOne(db: Db, e: Event)
    ensures ApplyAll(db, [e]) == Apply(db, e)
  {
    assert [e][1..] == [];
    assert ApplyAll(Apply(db, e), []) == Apply(db, e);
  }

  lemma RunIsEvents(db: Db, job: nat, cfg: Config, tick: Tick)
    requires job < |db.jobs|
    ensures ApplyAll(db, RunEvents(db, job, cfg, tick)) == ProcessReading(db, job, cfg, tick.lookups, tick.rounds).db
  {
    ReadErrorIsHarmless(db, job, cfg, tick.lookups, tick.rounds);
    if BeginReading(db, job, cfg, tick.lookups) == Begin(db, job, cfg) {
      ApplyOne(db, JobRun(job, cfg, tick.rounds));
    }
  }

  lemma MarkIsEvents(db: Db, job: nat, outcome: Outcome, markOk: bool)
    ensures ApplyAll(db, MarkEvents(job, outcome, markOk))
         == if outcome.Ended? && markOk then Marked(db, job, StatusFor(outcome.end)) else db
  {
    if outcome.Ended? && markOk {
      ApplyOne(db, StatusWrite(job, StatusFor(outcome.end)));
    }
  }

  /** A claimed job's part of a pass: its run and its status write. */
  function Served(db: Db, job: nat, cfg: Config, tick: Tick): Db
    requires job < |db.jobs|
  {
    var run := ProcessReading(db, job, cfg, tick.lookups, tick.rounds);
    if run.outcome.Ended? && tick.markOk then Marked(run.db, job, StatusFor(run.outcome.end)) else run.db
  }

  lemma ServedIsEvents(db: Db, job: nat, cfg: Config, tick: Tick)
    requires job < |db.jobs|
    ensures var run := ProcessReading(db, job, cfg, tick.lookups, tick.rounds);
            Served(db, job, cfg, tick)
            == ApplyAll(db, RunEvents(db, job, cfg, tick) + MarkEvents(job, run.outcome, tick.markOk))
  {
    var run := ProcessReading(db, job, cfg, tick.lookups, tick.rounds);
    RunIsEvents(db, job, cfg, tick);
    MarkIsEvents(run.db, job, run.outcome, tick.markOk);
    ApplyAllAppends(db, RunEvents(db, job, cfg, tick), MarkEvents(job, run.outcome, tick.markOk));
  }

  /** A pass of the worker does what its events do. */
  lemma PassIsEvents(db: Db, cfg: Config, tick: Tick)
    ensures Work(db, cfg, tick) == ApplyAll(db, EventsOfPass(db, cfg, tick))
  {
    var next := NextQueued(db.jobs, 0);
    if tick.ready && tick.claimOk && next.Some? {
      var job, claimed := next.value, Marked(db, next.value, Running);
      var run := ProcessReading(claimed, job, cfg, tick.lookups, tick.rounds);
      var claim, body := [StatusWrite(job, Running)], RunEvents(claimed, job, cfg, tick);
      var mark := MarkEvents(job, run.outcome, tick.markOk);
      assert Work(db, cfg, tick) == Served(claimed, job, cfg, tick);
      ServedIsEvents(claimed, job, cfg, tick);
      ApplyOne(db, claim[0]);
      ApplyAllAppends(db, claim, body + mark);
      assert claim + body + mark == claim + (body + mark);
    }
  }

  /** Any interleaving of worker passes with anything else is a history of events. */
  lemma {:induction false} HappeningsAreEvents(db: Db, xs: seq<Happening>)
    ensures HappenAll(db, xs) == ApplyAll(db, EventsOfAll(db, xs))
    decreases |xs|
  {
    if xs == [] {
    } else {
      var next := Happen(db, xs[0]);
      if xs[0].WorkerPass? {
        PassIsEvents(db, xs[0].cfg, xs[0].tick);
      } else {
        ApplyOne(db, xs[0].event);
      }
      HappeningsAreEvents(next, xs[1..]);
      ApplyAllAppends(db, EventsOf(db, xs[0]), EventsOfAll(next, xs[1..]));
    }
  }

  /**
   No gaps over any number of worker passes, with any reads, claims and status writes failing,
   and over whatever happens between them.
   */
  lemma PassesLeaveNoGap(h: seq<WebMessageInfo>, start: nat, chat: string, db: Db, xs: seq<Happening>)
    requires ValidHistory(h) && start <= |h| && CursorCovered(h, start, db, chat)
    requires HonestEvents(h, chat, db, EventsOfAll(db, xs))
    ensures CursorCovered(h, start, HappenAll(db, xs), chat)
    ensures AllDelivered(h, start, chat, db, EventsOfAll(db, xs), HappenAll(db, xs).rows)
  {
    HappeningsAreEvents(db, xs);
    LifeLeavesNoGap(h, start, chat, db, EventsOfAll(db, xs));
  }
}
