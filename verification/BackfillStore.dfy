/**
 The tables the backfill worker reads and writes (src/storage.rs): stored messages, one
 cursor per chat, and the job queue. `Db` is the value of the tables; `Store` holds them.
 */
module BackfillStore {
  import opened Wrappers
  import opened History

  /** A `backfill_cursor` row. */
  datatype Cursor =
    Cursor(id: Option<string>, fromMe: Option<bool>, tsMs: Option<i64>,
           moreRemain: bool, exhausted: bool, lastBackfillAt: Option<int>)

  datatype Status = Queued | Running | Paused | Finished | Failed | Cancelled

  /** A `backfill_jobs` row; its id is its position in `Db.jobs`. */
  datatype JobRow =
    JobRow(chat: string, targetKind: string, targetValue: Option<i64>, status: Status, fetched: i64)

  datatype Db = Db(rows: seq<MessageRow>, cursors: map<string, Cursor>, jobs: seq<JobRow>)

  function GetCursor(db: Db, chat: string): Option<Cursor> {
    if chat in db.cursors then Some(db.cursors[chat]) else None
  }

  /** The chat's row with the smallest timestamp; of equal timestamps the first inserted. */
  function OldestRow(rows: seq<MessageRow>, chat: string): Option<MessageRow>
  {
    if rows == [] then None
    else
      var last := rows[|rows| - 1];
      var best := OldestRow(rows[..|rows| - 1], chat);
      if last.chat == chat && (best.None? || last.tsSecs < best.value.tsSecs) then Some(last) else best
  }

  /** The cursor at an anchor. `lastAt` of `None` keeps the stored `last_backfill_at`. */
  function CursorAt(was: Option<Cursor>, a: Anchor, moreRemain: bool, exhausted: bool, lastAt: Option<int>): Cursor {
    Cursor(Some(a.id), Some(a.fromMe), Some(a.tsMs), moreRemain, exhausted,
           if lastAt.Some? || was.None? then lastAt else was.value.lastBackfillAt)
  }

  function Upserted(db: Db, chat: string, a: Anchor, moreRemain: bool, exhausted: bool, lastAt: Option<int>): Db {
    db.(cursors := db.cursors[chat := CursorAt(GetCursor(db, chat), a, moreRemain, exhausted, lastAt)])
  }

  /** The cursor and the job's counter, written in one transaction. */
  function Recorded(db: Db, job: nat, chat: string, a: Anchor, moreRemain: bool, exhausted: bool, fetched: u32): Db {
    var next := Upserted(db, chat, a, moreRemain, exhausted, None);
    if job < |db.jobs| then next.(jobs := db.jobs[job := db.jobs[job].(fetched := fetched)]) else next
  }

  /** A status write; only `Cancelled` itself may overwrite `Cancelled`. */
  function Marked(db: Db, job: nat, status: Status): Db {
    if job < |db.jobs| && (status == Cancelled || db.jobs[job].status != Cancelled) then
      db.(jobs := db.jobs[job := db.jobs[job].(status := status)])
    else db
  }

  /** The first queued job, if any. */
  function NextQueued(jobs: seq<JobRow>, from: nat): (r: Option<nat>)
    requires from <= |jobs|
    ensures r.Some? ==> from <= r.value < |jobs| && jobs[r.value].status == Queued
                        && forall i :: from <= i < r.value ==> jobs[i].status != Queued
    ensures r.None? ==> forall i :: from <= i < |jobs| ==> jobs[i].status != Queued
    decreases |jobs| - from
  {
    if from == |jobs| then None
    else if jobs[from].status == Queued then Some(from)
    else NextQueued(jobs, from + 1)
  }

  class Store {
    var rows: seq<MessageRow>
    var cursors: map<string, Cursor>
    var jobs: seq<JobRow>

    ghost function Tables(): Db
      reads this
    {
      Db(rows, cursors, jobs)
    }

    constructor (db: Db)
      ensures Tables() == db
    {
      rows, cursors, jobs := db.rows, db.cursors, db.jobs;
    }

    method InsertRows(more: seq<MessageRow>)
      modifies this`rows
      ensures rows == InsertAll(old(rows), more)
    {
      var i := 0;
      while i < |more|
        invariant i <= |more|
        invariant InsertAll(rows, more[i..]) == InsertAll(old(rows), more)
      {
        assert more[i..][0] == more[i] && more[i..][1..] == more[i + 1..];
        rows := InsertIfNew(rows, more[i]);
        i := i + 1;
      }
    }

    method UpsertCursor(chat: string, a: Anchor, moreRemain: bool, exhausted: bool, lastAt: Option<int>)
      modifies this`cursors
      ensures Tables() == Upserted(old(Tables()), chat, a, moreRemain, exhausted, lastAt)
    {
      var kept := if chat in cursors then cursors[chat].lastBackfillAt else None;
      cursors := cursors[chat := Cursor(Some(a.id), Some(a.fromMe), Some(a.tsMs), moreRemain, exhausted,
                                        if lastAt.Some? then lastAt else kept)];
    }

    method RecordProgress(job: nat, chat: string, a: Anchor, moreRemain: bool, exhausted: bool, fetched: u32)
      modifies this`cursors, this`jobs
      ensures Tables() == Recorded(old(Tables()), job, chat, a, moreRemain, exhausted, fetched)
    {
      UpsertCursor(chat, a, moreRemain, exhausted, None);
      if job < |jobs| {
        jobs := jobs[job := jobs[job].(fetched := fetched)];
      }
    }

    method MarkJob(job: nat, status: Status)
      modifies this`jobs
      ensures Tables() == Marked(old(Tables()), job, status)
    {
      if job < |jobs| && (status == Cancelled || jobs[job].status != Cancelled) {
        jobs := jobs[job := jobs[job].(status := status)];
      }
    }

    /** Claims the first queued job, if any, and sets it running. */
    method ClaimNext() returns (claimed: Option<nat>)
      modifies this`jobs
      ensures claimed == NextQueued(old(jobs), 0)
      ensures jobs == if claimed.Some? then old(jobs)[claimed.value := old(jobs)[claimed.value].(status := Running)]
                      else old(jobs)
    {
      claimed := NextQueued(jobs, 0);
      if claimed.Some? {
        jobs := jobs[claimed.value := jobs[claimed.value].(status := Running)];
      }
    }
  }
}
