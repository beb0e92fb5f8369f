/**
 The frontier never skips a message. However a run goes, with fetch errors, sink errors, refused
 writes and crashes, every storable message between the chat's stored anchor and the position the
 paging once started from is stored.
 */
module BackfillNoGaps {
  import opened Wrappers
  import opened History
  import opened PhoneHistory
  import opened BackfillStore
  import opened Backfill
  import opened CursorWriters

  /** Every storable message of the history at positions `lo..hi` has a row. */
  ghost predicate Kept(h: seq<WebMessageInfo>, rows: seq<MessageRow>, lo: nat, hi: nat)
    requires hi <= |h|
  {
    forall i :: lo <= i < hi && Storable(h[i]) ==> IsStored(rows, h[i].id.value)
  }

  /** Everything between the anchor and the starting position is stored. */
  ghost predicate Covered(h: seq<WebMessageInfo>, start: nat, rows: seq<MessageRow>, a: Anchor)
    requires ValidHistory(h) && start <= |h|
  {
    Position(h, a) <= start && Kept(h, rows, Position(h, a), start)
  }

  /** The chat has a usable cursor, covered, and exhausted only at the very beginning. */
  ghost predicate CursorCovered(h: seq<WebMessageInfo>, start: nat, db: Db, chat: string)
    requires ValidHistory(h) && start <= |h|
  {
    && chat in db.cursors
    && CursorAnchor(db.cursors[chat]).Some?
    && Covered(h, start, db.rows, CursorAnchor(db.cursors[chat]).value)
    && (db.cursors[chat].exhausted ==> Position(h, CursorAnchor(db.cursors[chat]).value) == 0)
  }

  /** The sink kept its word: it reported success only with every storable message inserted. */
  ghost predicate SinkComplete(r: Round) {
    r.answer.Page? && r.persist.Ok? ==>
      forall m :: m in r.answer.batch.messages && Storable(m) ==> IsStored(r.kept, m.id.value)
  }

  ghost predicate HonestRound(h: seq<WebMessageInfo>, count: int, a: Anchor, r: Round)
    requires ValidHistory(h)
  {
    SinkComplete(r) && (!r.cancelled && r.ready && r.answer.Page? ==> Answers(h, a, count, r.answer.batch))
  }

  ghost predicate HonestRounds(h: seq<WebMessageInfo>, count: int, t: Task, p: Paging, db: Db, rounds: seq<Round>)
    requires ValidHistory(h)
    decreases |rounds|
  {
    rounds == [] ||
    (HonestRound(h, count, p.anchor, rounds[0]) &&
     (match Turn(t, p, db, rounds[0])
      case Next(p', db') => HonestRounds(h, count, t, p', db', rounds[1..])
      case Stop(_, _) => true))
  }

  /** What `Done` promises of the rows, by target. */
  ghost predicate Reached(h: seq<WebMessageInfo>, start: nat, rows: seq<MessageRow>, target: FetchTarget)
    requires ValidHistory(h) && start <= |h|
  {
    match target
    case All => Kept(h, rows, 0, start)
    case Since(ts) =>
      forall i :: 0 <= i < start && Storable(h[i]) && KeyOf(h[i]).ts > ts ==> IsStored(rows, h[i].id.value)
    case Count(_) => true
  }

  /** The conclusion of a run or turn that left tables `db` with the given outcome. */
  ghost predicate Sound(h: seq<WebMessageInfo>, start: nat, chat: string, target: FetchTarget, outcome: Outcome, db: Db)
    requires ValidHistory(h) && start <= |h|
  {
    CursorCovered(h, start, db, chat) && (outcome == Ended(Done) ==> Reached(h, start, db.rows, target))
  }

  lemma MoreRowsCover(h: seq<WebMessageInfo>, start: nat, rows: seq<MessageRow>, more: seq<MessageRow>, a: Anchor)
    requires ValidHistory(h) && start <= |h| && Covered(h, start, rows, a)
    ensures Covered(h, start, InsertAll(rows, more), a)
  {
  }

  /** Storing an answer's messages extends the covered stretch down to the answer's start. */
  lemma AnswerCovers(h: seq<WebMessageInfo>, start: nat, a: Anchor, count: int, batch: HistoryBatch, lo: nat,
                     rows: seq<MessageRow>, kept: seq<MessageRow>)
    requires ValidHistory(h) && start <= |h| && Covered(h, start, rows, a)
    requires AnswersFrom(h, a, count, batch, lo)
    requires forall m :: m in batch.messages && Storable(m) ==> IsStored(kept, m.id.value)
    ensures Kept(h, InsertAll(rows, kept), lo, start)
  {
    var p := Position(h, a);
    SameElements(batch.messages, h[lo..p]);
    forall i | lo <= i < start && Storable(h[i])
      ensures IsStored(InsertAll(rows, kept), h[i].id.value)
    {
      if i < p {
        assert h[i] == h[lo..p][i - lo];
      }
    }
  }

  /** A cursor written at a covered anchor is covered. */
  lemma WrittenCursorCovered(h: seq<WebMessageInfo>, start: nat, db: Db, chat: string, a: Anchor,
                             moreRemain: bool, exhausted: bool, lastAt: Option<int>)
    requires ValidHistory(h) && start <= |h|
    requires a.id != "" && Covered(h, start, db.rows, a) && (exhausted ==> Position(h, a) == 0)
    ensures CursorCovered(h, start, Upserted(db, chat, a, moreRemain, exhausted, lastAt), chat)
  {
    assert CursorAnchor(Upserted(db, chat, a, moreRemain, exhausted, lastAt).cursors[chat]) == Some(a);
  }

  lemma CompleteKeeps(h: seq<WebMessageInfo>, start: nat, db: Db, chat: string, a: Anchor, moreRemain: bool, r: Round)
    requires ValidHistory(h) && start <= |h|
    requires a.id != "" && Covered(h, start, db.rows, a) && CursorCovered(h, start, db, chat)
    requires !moreRemain ==> Position(h, a) == 0
    ensures var turned := Complete(db, chat, a, moreRemain, r);
            turned.Stop? && CursorCovered(h, start, turned.db, chat) && turned.db.rows == db.rows
  {
    WrittenCursorCovered(h, start, db, chat, a, moreRemain, !moreRemain, Some(r.now));
  }

  /** Where the target is met, what it asked for is stored. */
  lemma DoneReaches(h: seq<WebMessageInfo>, start: nat, rows: seq<MessageRow>, t: Task, p: Paging, moreRemain: bool)
    requires ValidHistory(h) && start <= |h| && Covered(h, start, rows, p.anchor)
    requires !moreRemain ==> Position(h, p.anchor) == 0
    requires EvaluateTarget(t.target, p.fetched, Some(p.anchor.tsMs), moreRemain, t.backstop).StepDone?
    ensures Reached(h, start, rows, t.target)
  {
    PositionSplits(h, p.anchor);
  }

  lemma DecideKeeps(h: seq<WebMessageInfo>, start: nat, t: Task, p: Paging, db: Db, moreRemain: bool, r: Round)
    requires ValidHistory(h) && start <= |h| && p.anchor.id != ""
    requires Covered(h, start, db.rows, p.anchor) && CursorCovered(h, start, db, t.chat)
    requires !moreRemain ==> Position(h, p.anchor) == 0
    ensures var turned := Decide(t, p, db, moreRemain, r);
            if turned.Next? then turned.paging == p && turned.db == db
            else Sound(h, start, t.chat, t.target, turned.outcome, turned.db)
  {
    if EvaluateTarget(t.target, p.fetched, Some(p.anchor.tsMs), moreRemain, t.backstop).StepDone? {
      DoneReaches(h, start, db.rows, t, p, moreRemain);
      CompleteKeeps(h, start, db, t.chat, p.anchor, moreRemain, r);
    }
  }

  lemma RecordKeeps(h: seq<WebMessageInfo>, start: nat, t: Task, db: Db, a: Anchor, moreRemain: bool, fetched: u32)
    requires ValidHistory(h) && start <= |h| && a.id != ""
    requires Covered(h, start, db.rows, a) && (!moreRemain ==> Position(h, a) == 0)
    ensures var saved := Recorded(db, t.job, t.chat, a, moreRemain, !moreRemain, fetched);
            saved.rows == db.rows && CursorCovered(h, start, saved, t.chat)
  {
    WrittenCursorCovered(h, start, db, t.chat, a, moreRemain, !moreRemain, None);
  }

  lemma MoveKeeps(h: seq<WebMessageInfo>, start: nat, t: Task, p: Paging, db: Db, a: Anchor, batch: HistoryBatch,
                  r: Round)
    requires ValidHistory(h) && start <= |h| && a.id != ""
    requires Covered(h, start, db.rows, a) && CursorCovered(h, start, db, t.chat)
    requires batch.messages != [] && (!batch.moreRemain ==> Position(h, a) == 0)
    ensures var turned := Move(t, p, db, a, batch, r);
            if turned.Next? then
              && turned.paging.anchor == a
              && Covered(h, start, turned.db.rows, a)
              && CursorCovered(h, start, turned.db, t.chat)
            else Sound(h, start, t.chat, t.target, turned.outcome, turned.db)
  {
    var fetched := SaturatingAdd(p.fetched, AsU32(|batch.messages|));
    var repeats := if a.id == p.lastId then p.repeats + 1 else 0;
    var next := Paging(a, fetched, a.id, repeats);
    if repeats < STUCK_K && !r.save.Crash? {
      var recorded := Recorded(db, t.job, t.chat, a, batch.moreRemain, !batch.moreRemain, fetched);
      var saved := if r.save.Ok? then recorded else db;
      RecordKeeps(h, start, t, db, a, batch.moreRemain, fetched);
      DecideKeeps(h, start, t, next, saved, batch.moreRemain, r);
      assert Move(t, p, db, a, batch, r) == Decide(t, next, saved, batch.moreRemain, r);
    }
  }

  lemma AdvanceKeeps(h: seq<WebMessageInfo>, start: nat, count: int, t: Task, p: Paging, db: Db, r: Round,
                     batch: HistoryBatch, lo: nat)
    requires ValidHistory(h) && start <= |h| && p.anchor.id != ""
    requires Covered(h, start, db.rows, p.anchor) && CursorCovered(h, start, db, t.chat)
    requires AnswersFrom(h, p.anchor, count, batch, lo) && Kept(h, db.rows, lo, start)
    ensures var turned := Advance(t, p, db, batch, r);
            if turned.Next? then
              && turned.paging.anchor.id != ""
              && Covered(h, start, turned.db.rows, turned.paging.anchor)
              && CursorCovered(h, start, turned.db, t.chat)
            else Sound(h, start, t.chat, t.target, turned.outcome, turned.db)
  {
    AnswerMovesAnchor(h, p.anchor, count, batch, lo);
    if lo == Position(h, p.anchor) {
      CompleteKeeps(h, start, db, t.chat, p.anchor, false, r);
    } else {
      var a := MessageAnchor(h[lo]).value;
      assert Keyed(h[lo]);
      MoveKeeps(h, start, t, p, db, a, batch, r);
    }
  }

  /** One turn keeps the frontier covered, whatever fails in it. */
  lemma TurnKeeps(h: seq<WebMessageInfo>, start: nat, count: int, t: Task, p: Paging, db: Db, r: Round)
    requires ValidHistory(h) && start <= |h|
    requires p.anchor.id != ""
    requires Covered(h, start, db.rows, p.anchor) && CursorCovered(h, start, db, t.chat)
    requires HonestRound(h, count, p.anchor, r)
    ensures var turned := Turn(t, p, db, r);
            if turned.Next? then
              && turned.paging.anchor.id != ""
              && Covered(h, start, turned.db.rows, turned.paging.anchor)
              && CursorCovered(h, start, turned.db, t.chat)
            else Sound(h, start, t.chat, t.target, turned.outcome, turned.db)
  {
    if !r.cancelled && r.ready && r.answer.Page? {
      var stored := db.(rows := InsertAll(db.rows, r.kept));
      MoreRowsCover(h, start, db.rows, r.kept, p.anchor);
      MoreRowsCover(h, start, db.rows, r.kept, CursorAnchor(db.cursors[t.chat]).value);
      if r.persist.Ok? {
        var lo: nat :| AnswersFrom(h, p.anchor, count, r.answer.batch, lo);
        AnswerCovers(h, start, p.anchor, count, r.answer.batch, lo, db.rows, r.kept);
        AdvanceKeeps(h, start, count, t, p, stored, r, r.answer.batch, lo);
        assert Turn(t, p, db, r) == Advance(t, p, stored, r.answer.batch, r);
      } else {
        assert Turn(t, p, db, r).Stop? && Turn(t, p, db, r).db == stored;
      }
    } else if r.cancelled && r.save.Ok? {
      WrittenCursorCovered(h, start, db, t.chat, p.anchor, true, false, None);
    }
  }

  // ----- a chat without a usable cursor -----

  /** A row of this chat holding this message, as far as anchors are concerned. */
  predicate RowFits(row: MessageRow, m: WebMessageInfo, chat: string) {
    row.chat == chat && m.id == Some(row.id) && MessageAnchor(m) == Some(StoredAnchor(row))
  }

  /** The sink stores nothing but rows of this chat for messages of the answer. */
  ghost predicate OwnRows(r: Round, chat: string) {
    r.answer.Page? ==>
      forall row :: row in r.kept ==>
        exists m :: m in r.answer.batch.messages && Storable(m) && RowFits(row, m, chat)
  }

  /** The sink stores its own rows, and each batch whole or not at all. */
  ghost predicate WholeRound(r: Round, chat: string) {
    OwnRows(r, chat) &&
    (r.answer.Page? ==>
       r.kept == [] || forall m :: m in r.answer.batch.messages && Storable(m) ==> IsStored(r.kept, m.id.value))
  }

  /** Without a usable cursor the next run starts from the oldest stored message, at or above
      `floor`, and everything from there to the start is stored. */
  ghost predicate OldestCovered(h: seq<WebMessageInfo>, start: nat, db: Db, chat: string, floor: nat)
    requires ValidHistory(h) && start <= |h|
  {
    var next := ResolveAnchor(db, chat);
    && next.OldestStored? && next.anchor.id != ""
    && (chat in db.cursors ==> !db.cursors[chat].exhausted)
    && Covered(h, start, db.rows, next.anchor) && floor <= Position(h, next.anchor)
  }

  /** The next run starts from a covered anchor. */
  ghost predicate Frontier(h: seq<WebMessageInfo>, start: nat, db: Db, chat: string, floor: nat)
    requires ValidHistory(h) && start <= |h|
  {
    CursorCovered(h, start, db, chat) || OldestCovered(h, start, db, chat, floor)
  }

  lemma OldestIsRow(rows: seq<MessageRow>, chat: string)
    requires OldestRow(rows, chat).Some?
    ensures OldestRow(rows, chat).value in rows && OldestRow(rows, chat).value.chat == chat
  {
    var n := |rows| - 1;
    if OldestRow(rows, chat) == Some(rows[n]) {
    } else {
      OldestIsRow(rows[..n], chat);
    }
  }

  /** The oldest row after an insert: the same, or one of the new rows, and then strictly older. */
  ghost predicate OldestMoves(rows: seq<MessageRow>, more: seq<MessageRow>, chat: string, o: Option<MessageRow>) {
    o == OldestRow(rows, chat) ||
    (o.Some? && o.value in more && o.value.chat == chat && !IsStored(rows, o.value.id)
     && (OldestRow(rows, chat).Some? ==> o.value.tsSecs < OldestRow(rows, chat).value.tsSecs))
  }

  lemma OldestAfterOne(rows: seq<MessageRow>, row: MessageRow, chat: string)
    ensures OldestMoves(rows, [row], chat, OldestRow(InsertIfNew(rows, row), chat))
  {
    if !IsStored(rows, row.id) {
      assert (rows + [row])[..|rows|] == rows;
    }
  }

  lemma {:induction false} OldestAfter(rows: seq<MessageRow>, more: seq<MessageRow>, chat: string)
    ensures OldestMoves(rows, more, chat, OldestRow(InsertAll(rows, more), chat))
    decreases |more|
  {
    if more == [] {
    } else {
      var next := InsertIfNew(rows, more[0]);
      OldestAfterOne(rows, more[0], chat);
      OldestAfter(next, more[1..], chat);
      MovesTwice(rows, more[0], more[1..], chat, OldestRow(InsertAll(next, more[1..]), chat));
      assert more == [more[0]] + more[1..];
    }
  }

  lemma MovesTwice(rows: seq<MessageRow>, row: MessageRow, more: seq<MessageRow>, chat: string, o: Option<MessageRow>)
    requires OldestMoves(rows, [row], chat, OldestRow(InsertIfNew(rows, row), chat))
    requires OldestMoves(InsertIfNew(rows, row), more, chat, o)
    ensures OldestMoves(rows, [row] + more, chat, o)
  {
    if o.Some? && IsStored(rows, o.value.id) {
      var x :| x in rows && x.id == o.value.id;
      assert x in InsertIfNew(rows, row);
    }
  }

  /** Where the oldest stored message is after a batch of own rows: where it was, or at one of
      the batch's messages. */
  lemma OldestWithin(h: seq<WebMessageInfo>, a: Anchor, count: int, batch: HistoryBatch, lo: nat, rows: seq<MessageRow>,
                     r: Round, chat: string) returns (i: nat)
    requires ValidHistory(h) && AnswersFrom(h, a, count, batch, lo)
    requires r.answer == Page(batch) && OwnRows(r, chat)
    requires OldestRow(InsertAll(rows, r.kept), chat) != OldestRow(rows, chat)
    ensures lo <= i < Position(h, a) && Storable(h[i])
    ensures var o := OldestRow(InsertAll(rows, r.kept), chat);
            && o.Some? && o.value in InsertAll(rows, r.kept) && RowFits(o.value, h[i], chat)
            && !IsStored(rows, h[i].id.value)
            && (OldestRow(rows, chat).Some? ==> o.value.tsSecs < OldestRow(rows, chat).value.tsSecs)
  {
    var o := OldestRow(InsertAll(rows, r.kept), chat);
    OldestAfter(rows, r.kept, chat);
    OldestIsRow(InsertAll(rows, r.kept), chat);
    i := RowOfBlock(h, lo, Position(h, a), r, chat, o.value);
  }

  /** An own row holds one of the messages of the block the answer came from. */
  lemma RowOfBlock(h: seq<WebMessageInfo>, lo: nat, hi: nat, r: Round, chat: string, row: MessageRow) returns (i: nat)
    requires r.answer.Page? && lo <= hi <= |h| && multiset(r.answer.batch.messages) == multiset(h[lo..hi])
    requires OwnRows(r, chat) && row in r.kept
    ensures lo <= i < hi && Storable(h[i]) && RowFits(row, h[i], chat)
  {
    var messages := r.answer.batch.messages;
    var m :| m in messages && Storable(m) && RowFits(row, m, chat);
    SameElements(messages, h[lo..hi]);
    i :| lo <= i < hi && h[i] == m;
  }

  /** A batch stored whole, or not at all, leaves the oldest stored message covered. */
  lemma WholeBatchKeepsOldest(h: seq<WebMessageInfo>, start: nat, count: int, a: Anchor, db: Db, r: Round,
                              chat: string, lo: nat)
    requires ValidHistory(h) && start <= |h| && r.answer.Page?
    requires AnswersFrom(h, a, count, r.answer.batch, lo) && WholeRound(r, chat)
    requires Covered(h, start, db.rows, a) && OldestCovered(h, start, db, chat, Position(h, a))
    ensures OldestCovered(h, start, db.(rows := InsertAll(db.rows, r.kept)), chat, lo)
  {
    var rows' := InsertAll(db.rows, r.kept);
    MoreRowsCover(h, start, db.rows, r.kept, ResolveAnchor(db, chat).anchor);
    if OldestRow(rows', chat) != OldestRow(db.rows, chat) {
      var i := OldestWithin(h, a, count, r.answer.batch, lo, db.rows, r, chat);
      AnswerCovers(h, start, a, count, r.answer.batch, lo, db.rows, r.kept);
      PositionOfMessage(h, i);
      assert Keyed(h[i]);
    }
  }

  // ----- one turn, with or without a cursor -----

  lemma MoveKeepsRows(t: Task, p: Paging, db: Db, oldest: Anchor, batch: HistoryBatch, r: Round)
    ensures Move(t, p, db, oldest, batch, r).db.rows == db.rows
  {
  }

  /** What a turn does to the rows. */
  lemma RowsOfTurn(t: Task, p: Paging, db: Db, r: Round)
    ensures Turn(t, p, db, r).db.rows
         == if !r.cancelled && r.ready && r.answer.Page? then InsertAll(db.rows, r.kept) else db.rows
  {
    if !r.cancelled && r.ready && r.answer.Page? {
      var stored, batch := db.(rows := InsertAll(db.rows, r.kept)), r.answer.batch;
      if OldestAnchor(batch.messages).Some? {
        MoveKeepsRows(t, p, stored, OldestAnchor(batch.messages).value, batch, r);
      }
    }
  }

  /** The tables as they would be with a cursor at the loop's anchor. */
  function AsIf(db: Db, chat: string, a: Anchor): Db { Upserted(db, chat, a, true, false, None) }

  /** The two turns differ at most in the cursors, and not there once the cursor is written. */
  ghost predicate SameTurn(db: Db, turned: Turned, turned': Turned) {
    && (turned.Next? <==> turned'.Next?)
    && (if turned.Next? then turned.paging == turned'.paging else turned.outcome == turned'.outcome)
    && turned.db.rows == turned'.db.rows
    && (turned.db.cursors == db.cursors || turned.db.cursors == turned'.db.cursors)
  }

  lemma AsIfUpserted(db: Db, chat: string, a: Anchor, b: Anchor, more: bool, exhausted: bool, at: Option<int>)
    ensures Upserted(AsIf(db, chat, a), chat, b, more, exhausted, at).cursors
         == Upserted(db, chat, b, more, exhausted, at).cursors
  {
  }

  lemma AsIfComplete(db: Db, chat: string, a: Anchor, b: Anchor, more: bool, r: Round)
    ensures SameTurn(db, Complete(db, chat, b, more, r), Complete(AsIf(db, chat, a), chat, b, more, r))
  {
    AsIfUpserted(db, chat, a, b, more, !more, Some(r.now));
  }

  lemma AsIfMove(t: Task, p: Paging, db: Db, a: Anchor, oldest: Anchor, batch: HistoryBatch, r: Round)
    ensures SameTurn(db, Move(t, p, db, oldest, batch, r), Move(t, p, AsIf(db, t.chat, a), oldest, batch, r))
  {
    var fetched := SaturatingAdd(p.fetched, AsU32(|batch.messages|));
    var exhausted := |batch.messages| == 0 || !batch.moreRemain;
    if r.save.Ok? {
      AsIfRecorded(db, t.job, t.chat, a, oldest, batch.moreRemain, exhausted, fetched);
    } else if r.save.Refused? {
      var next := Paging(oldest, fetched, oldest.id, if oldest.id == p.lastId then p.repeats + 1 else 0);
      AsIfDecide(t, next, db, a, batch.moreRemain, r);
    }
  }

  lemma AsIfDecide(t: Task, p: Paging, db: Db, a: Anchor, more: bool, r: Round)
    ensures SameTurn(db, Decide(t, p, db, more, r), Decide(t, p, AsIf(db, t.chat, a), more, r))
  {
    AsIfComplete(db, t.chat, a, p.anchor, more, r);
  }

  lemma AsIfRecorded(db: Db, job: nat, chat: string, a: Anchor, b: Anchor, more: bool, exhausted: bool, fetched: u32)
    ensures Recorded(AsIf(db, chat, a), job, chat, b, more, exhausted, fetched)
         == Recorded(db, job, chat, b, more, exhausted, fetched)
  {
    AsIfUpserted(db, chat, a, b, more, exhausted, None);
  }

  lemma AsIfTurn(t: Task, p: Paging, db: Db, a: Anchor, r: Round)
    ensures SameTurn(db, Turn(t, p, db, r), Turn(t, p, AsIf(db, t.chat, a), r))
  {
    var asIf := AsIf(db, t.chat, a);
    if r.cancelled {
      AsIfUpserted(db, t.chat, a, p.anchor, true, false, None);
    } else if r.ready && r.answer.Page? && r.persist.Ok? {
      var stored, batch := db.(rows := InsertAll(db.rows, r.kept)), r.answer.batch;
      assert AsIf(stored, t.chat, a) == asIf.(rows := InsertAll(asIf.rows, r.kept));
      assert Turn(t, p, db, r) == Advance(t, p, stored, batch, r);
      assert Turn(t, p, asIf, r) == Advance(t, p, AsIf(stored, t.chat, a), batch, r);
      if OldestAnchor(batch.messages).None? {
        AsIfComplete(stored, t.chat, a, p.anchor, false, r);
      } else {
        AsIfMove(t, p, stored, a, OldestAnchor(batch.messages).value, batch, r);
      }
    }
  }

  /** The conclusion of a turn or run that began at a frontier, by a cursor or not. */
  ghost predicate SoundAt(h: seq<WebMessageInfo>, start: nat, chat: string, target: FetchTarget, outcome: Outcome,
                          db: Db,
                          byCursor: bool)
    requires ValidHistory(h) && start <= |h|
  {
    && (if byCursor then CursorCovered(h, start, db, chat) else Frontier(h, start, db, chat, 0))
    && (outcome == Ended(Done) ==> Reached(h, start, db.rows, target))
  }

  /** A turn from the oldest stored message keeps the frontier covered, when its batch is stored
      whole or not at all. */
  lemma OldestTurnKeeps(h: seq<WebMessageInfo>, start: nat, count: int, t: Task, p: Paging, db: Db, r: Round)
    requires ValidHistory(h) && start <= |h| && p.anchor.id != ""
    requires Covered(h, start, db.rows, p.anchor) && OldestCovered(h, start, db, t.chat, Position(h, p.anchor))
    requires HonestRound(h, count, p.anchor, r) && WholeRound(r, t.chat)
    ensures var turned := Turn(t, p, db, r);
            if turned.Next? then
              && turned.paging.anchor.id != ""
              && Covered(h, start, turned.db.rows, turned.paging.anchor)
              && Frontier(h, start, turned.db, t.chat, Position(h, turned.paging.anchor))
            else SoundAt(h, start, t.chat, t.target, turned.outcome, turned.db, false)
  {
    var asIf := AsIf(db, t.chat, p.anchor);
    var turned := Turn(t, p, db, r);
    WrittenCursorCovered(h, start, db, t.chat, p.anchor, true, false, None);
    TurnKeeps(h, start, count, t, p, asIf, r);
    AsIfTurn(t, p, db, p.anchor, r);
    if turned.db.cursors == db.cursors {
      OldestTurnRows(h, start, count, t, p, db, r);
    } else {
      SameCoverage(h, start, Turn(t, p, asIf, r).db, turned.db, t.chat);
    }
  }

  lemma SameCoverage(h: seq<WebMessageInfo>, start: nat, db: Db, db': Db, chat: string)
    requires ValidHistory(h) && start <= |h| && db.rows == db'.rows && db.cursors == db'.cursors
    ensures CursorCovered(h, start, db, chat) ==> CursorCovered(h, start, db', chat)
  {
  }

  /** While no cursor is written, the oldest stored message stays covered. */
  lemma OldestTurnRows(h: seq<WebMessageInfo>, start: nat, count: int, t: Task, p: Paging, db: Db, r: Round)
    requires ValidHistory(h) && start <= |h|
    requires Covered(h, start, db.rows, p.anchor) && OldestCovered(h, start, db, t.chat, Position(h, p.anchor))
    requires HonestRound(h, count, p.anchor, r) && WholeRound(r, t.chat)
    requires Turn(t, p, db, r).db.cursors == db.cursors
    ensures var turned := Turn(t, p, db, r);
            && OldestCovered(h, start, turned.db, t.chat, 0)
            && (turned.Next? ==> OldestCovered(h, start, turned.db, t.chat, Position(h, turned.paging.anchor)))
  {
    var turned := Turn(t, p, db, r);
    RowsOfTurn(t, p, db, r);
    if !r.cancelled && r.ready && r.answer.Page? {
      var lo: nat :| AnswersFrom(h, p.anchor, count, r.answer.batch, lo);
      WholeBatchKeepsOldest(h, start, count, p.anchor, db, r, t.chat, lo);
      AnswerMovesAnchor(h, p.anchor, count, r.answer.batch, lo);
      NextIsOldest(t, p, db, r);
      SameOldest(h, start, db.(rows := InsertAll(db.rows, r.kept)), turned.db, t.chat, lo);
    } else {
      NextIsOldest(t, p, db, r);
      SameOldest(h, start, db, turned.db, t.chat, Position(h, p.anchor));
    }
  }

  lemma SameOldest(h: seq<WebMessageInfo>, start: nat, db: Db, db': Db, chat: string, floor: nat)
    requires ValidHistory(h) && start <= |h| && db.rows == db'.rows && db.cursors == db'.cursors
    requires OldestCovered(h, start, db, chat, floor)
    ensures OldestCovered(h, start, db', chat, floor) && OldestCovered(h, start, db', chat, 0)
  {
  }

  lemma NextIsOldest(t: Task, p: Paging, db: Db, r: Round)
    ensures var turned := Turn(t, p, db, r);
            turned.Next? ==> r.answer.Page? && OldestAnchor(r.answer.batch.messages) == Some(turned.paging.anchor)
  {
  }

  /** Every round of the run stores whole batches. */
  ghost predicate WholeRounds(rounds: seq<Round>, chat: string) {
    forall i :: 0 <= i < |rounds| ==> WholeRound(rounds[i], chat)
  }

  lemma {:induction false} PagesKeep(h: seq<WebMessageInfo>, start: nat, count: int, t: Task, p: Paging, db: Db,
                                     rounds: seq<Round>)
    requires ValidHistory(h) && start <= |h|
    requires p.anchor.id != "" && Covered(h, start, db.rows, p.anchor)
    requires CursorCovered(h, start, db, t.chat)
             || (OldestCovered(h, start, db, t.chat, Position(h, p.anchor)) && WholeRounds(rounds, t.chat))
    requires HonestRounds(h, count, t, p, db, rounds)
    ensures var run := Pages(t, p, db, rounds);
            SoundAt(h, start, t.chat, t.target, run.outcome, run.db, CursorCovered(h, start, db, t.chat))
    decreases |rounds|
  {
    if rounds == [] {
    } else {
      var turned := Turn(t, p, db, rounds[0]);
      if CursorCovered(h, start, db, t.chat) {
        TurnKeeps(h, start, count, t, p, db, rounds[0]);
      } else {
        OldestTurnKeeps(h, start, count, t, p, db, rounds[0]);
      }
      if turned.Next? {
        PagesKeep(h, start, count, t, turned.paging, turned.db, rounds[1..]);
      }
    }
  }

  ghost predicate HonestRun(h: seq<WebMessageInfo>, db: Db, job: nat, cfg: Config, rounds: seq<Round>)
    requires ValidHistory(h) && job < |db.jobs|
  {
    match Begin(db, job, cfg)
    case Open(t, p) => HonestRounds(h, cfg.batchSize, t, p, db, rounds)
    case Finish(_) => true
  }

  /** A run that ended `Done` has what its target asked for in these rows. */
  ghost predicate Delivered(h: seq<WebMessageInfo>, start: nat, db: Db, job: nat, outcome: Outcome,
                            rows: seq<MessageRow>)
    requires ValidHistory(h) && start <= |h| && job < |db.jobs|
  {
    var target := ParseTarget(db.jobs[job].targetKind, db.jobs[job].targetValue);
    outcome == Ended(Done) ==> target.Some? && Reached(h, start, rows, target.value)
  }

  /**
   A run leaves no gap, however it ends, and when it ends `Done`, what its target asked for is
   stored: on a chat with a usable cursor always, and from the oldest stored message when each
   batch is stored whole or not at all.
   */
  lemma RunLeavesNoGap(h: seq<WebMessageInfo>, start: nat, db: Db, job: nat, cfg: Config, rounds: seq<Round>)
    requires ValidHistory(h) && start <= |h| && job < |db.jobs|
    requires CursorCovered(h, start, db, db.jobs[job].chat)
             || (OldestCovered(h, start, db, db.jobs[job].chat, 0) && WholeRounds(rounds, db.jobs[job].chat))
    requires HonestRun(h, db, job, cfg, rounds)
    ensures var chat, run := db.jobs[job].chat, Process(db, job, cfg, rounds);
            && Frontier(h, start, run.db, chat, 0)
            && (CursorCovered(h, start, db, chat) ==> CursorCovered(h, start, run.db, chat))
            && Delivered(h, start, db, job, run.outcome, run.db.rows)
  {
    match Begin(db, job, cfg) {
      case Open(t, p) => PagesKeep(h, start, cfg.batchSize, t, p, db, rounds);
      case Finish(_) =>
    }
  }
}
