/**
 Runs cut in the middle of storing a batch. The batch and the cursor are not written in one
 transaction, and a refused cursor write is ignored, so the next run may start below messages
 that were not stored: exactly when the chat has no usable cursor and its history offers a tear.
 */
module BackfillTears {
  import opened Wrappers
  import opened KeyOrder
  import opened History
  import opened PhoneHistory
  import opened BackfillStore
  import opened Backfill
  import opened BackfillNoGaps
  import opened BackfillResume
  import opened BackfillBounds

  /** The next run of the chat starts from a covered anchor. */
  ghost predicate NextStartCovered(h: seq<WebMessageInfo>, start: nat, db: Db, chat: string)
    requires ValidHistory(h) && start <= |h|
  {
    var next := ResolveAnchor(db, chat);
    !next.Unanchored? ==> Covered(h, start, db.rows, next.anchor)
  }

  /** An honest answer to this anchor, of which the sink stores nothing but the chat's own rows. */
  ghost predicate OwnRound(h: seq<WebMessageInfo>, count: i32, a: Anchor, r: Round, chat: string)
    requires ValidHistory(h)
  {
    HonestRound(h, count, a, r) && OwnRows(r, chat)
  }

  ghost predicate OwnRounds(h: seq<WebMessageInfo>, count: i32, t: Task, p: Paging, db: Db, rounds: seq<Round>)
    requires ValidHistory(h)
  {
    HonestRounds(h, count, t, p, db, rounds) && forall i :: 0 <= i < |rounds| ==> OwnRows(rounds[i], t.chat)
  }

  /**
   However the run goes and wherever it is cut, with any of its writes refused, the next run
   starts from a covered anchor.
   */
  ghost predicate CutSafe(h: seq<WebMessageInfo>, count: i32, t: Task, p: Paging, db: Db)
    requires ValidHistory(h)
  {
    forall rounds :: OwnRounds(h, count, t, p, db, rounds) ==>
      NextStartCovered(h, Position(h, p.anchor), Pages(t, p, db, rounds).db, t.chat)
  }

  /** A message the extractor handles and no row holds yet. */
  predicate Unstored(m: WebMessageInfo, rows: seq<MessageRow>) {
    Storable(m) && !IsStored(rows, m.id.value)
  }

  function CountAfter(fetched: u32, more: nat): u32 {
    if fetched + more > U32_MAX then U32_MAX else fetched + more
  }

  /** A run that has come from `p` down to the message at `at` goes on from there. */
  ghost predicate GoesOnAt(h: seq<WebMessageInfo>, t: Task, p: Paging, at: nat)
    requires ValidHistory(h)
  {
    var q := Position(h, p.anchor);
    at == q ||
    (at < q && EvaluateTarget(t.target, CountAfter(p.fetched, q - at), Some(MessageAnchor(h[at]).value.tsMs), true,
                              t.backstop).Continue?)
  }

  /** The message would become the chat's oldest row, with everything unstored of `at..q` stored. */
  predicate BecomesOldest(h: seq<WebMessageInfo>, i: nat, at: nat, q: nat, db: Db, chat: string)
    requires ValidHistory(h) && i < at <= q <= |h|
  {
    && (OldestRow(db.rows, chat).Some? ==> h[i].timestamp.value < OldestRow(db.rows, chat).value.tsSecs)
    && forall k :: at <= k < q && Unstored(h[k], db.rows) ==> h[i].timestamp.value < h[k].timestamp.value
  }

  /**
   Two unstored messages within one answer to a fetch below `at`, where the run may come to: the
   older of them would become the chat's oldest row.
   */
  ghost predicate Tear(h: seq<WebMessageInfo>, count: i32, t: Task, p: Paging, db: Db, i: nat, j: nat, at: nat)
    requires ValidHistory(h)
  {
    && GoesOnAt(h, t, p, at) && at - count <= i < j < at
    && Unstored(h[i], db.rows) && Unstored(h[j], db.rows)
    && BecomesOldest(h, i, at, Position(h, p.anchor), db, t.chat)
  }

  ghost predicate CanTear(h: seq<WebMessageInfo>, count: i32, t: Task, p: Paging, db: Db)
    requires ValidHistory(h)
  {
    exists i: nat, j: nat, at: nat :: Tear(h, count, t, p, db, i, j, at)
  }

  /** The next answer already offers one. */
  ghost predicate CanTearHere(h: seq<WebMessageInfo>, count: i32, t: Task, p: Paging, db: Db)
    requires ValidHistory(h)
  {
    exists i: nat, j: nat :: Tear(h, count, t, p, db, i, j, Position(h, p.anchor))
  }

  // ----- a tear is a cut that skips a message -----

  /** The row a stored message becomes, as far as anchors are concerned. */
  function RowFor(chat: string, m: WebMessageInfo): MessageRow
    requires Keyed(m)
  {
    MessageRow(chat, m.id.value, m.fromMe.GetOr(false), m.timestamp.value, "text", None, "backfill", false)
  }

  /** The answer `h[i..q]`, of which only the oldest message was stored in time. */
  function TornRound(h: seq<WebMessageInfo>, i: nat, q: nat, chat: string): Round
    requires i < q <= |h| && Keyed(h[i])
  {
    Round(false, true, Page(HistoryBatch(h[i..q], i > 0)), [RowFor(chat, h[i])], Crash, Ok, Ok, false, 0)
  }

  lemma TornIsOwn(h: seq<WebMessageInfo>, count: i32, a: Anchor, i: nat, q: nat, chat: string)
    requires ValidHistory(h) && q == Position(h, a) && q - count <= i < q && Storable(h[i])
    ensures OwnRound(h, count, a, TornRound(h, i, q, chat), chat)
  {
    var batch, row := HistoryBatch(h[i..q], i > 0), RowFor(chat, h[i]);
    assert AnswersFrom(h, a, count, batch, i);
    assert Answers(h, a, count, batch);
    assert TornRound(h, i, q, chat).answer == Page(batch);
    assert h[i] == h[i..q][0] && h[i] in batch.messages && RowFits(row, h[i], chat);
  }

  lemma InsertOne(rows: seq<MessageRow>, row: MessageRow)
    ensures InsertAll(rows, [row]) == InsertIfNew(rows, row)
  {
    assert [row][1..] == [];
    assert InsertAll(rows, [row]) == InsertAll(InsertIfNew(rows, row), []);
  }

  lemma TornTurn(h: seq<WebMessageInfo>, t: Task, p: Paging, db: Db, i: nat, q: nat)
    requires ValidHistory(h) && i < q <= |h| && Unstored(h[i], db.rows)
    ensures Turn(t, p, db, TornRound(h, i, q, t.chat)) == Stop(Killed, db.(rows := db.rows + [RowFor(t.chat, h[i])]))
  {
    InsertOne(db.rows, RowFor(t.chat, h[i]));
  }

  /** After it the next run starts at the older message, with the newer one not stored. */
  lemma TornLeavesGap(h: seq<WebMessageInfo>, start: nat, db: Db, chat: string, i: nat, j: nat)
    requires ValidHistory(h) && i < j < start <= |h| && Unstored(h[i], db.rows) && Unstored(h[j], db.rows)
    requires ResolveAnchor(db, chat).OldestStored?
    requires OldestRow(db.rows, chat).Some? ==> h[i].timestamp.value < OldestRow(db.rows, chat).value.tsSecs
    ensures !NextStartCovered(h, start, db.(rows := db.rows + [RowFor(chat, h[i])]), chat)
  {
    var row := RowFor(chat, h[i]);
    var after := db.(rows := db.rows + [row]);
    assert after.rows[..|after.rows| - 1] == db.rows;
    assert OldestRow(after.rows, chat) == Some(row);
    assert StoredAnchor(row) == MessageAnchor(h[i]).value;
    assert ResolveAnchor(after, chat) == OldestStored(MessageAnchor(h[i]).value);
    PositionOfMessage(h, i);
    assert h[i].id.value != h[j].id.value;
    assert !IsStored(after.rows, h[j].id.value);
  }

  /** These rounds are honest, and leave the next run below an unstored message. */
  ghost predicate Spoils(h: seq<WebMessageInfo>, start: nat, count: i32, t: Task, p: Paging, db: Db, rounds: seq<Round>)
    requires ValidHistory(h) && start <= |h|
  {
    OwnRounds(h, count, t, p, db, rounds) && !NextStartCovered(h, start, Pages(t, p, db, rounds).db, t.chat)
  }

  /** The run is cut while it stores the torn answer. */
  lemma TornCutSpoils(h: seq<WebMessageInfo>, start: nat, count: i32, t: Task, p: Paging, db: Db, i: nat, j: nat)
    requires ValidHistory(h) && Position(h, p.anchor) <= start <= |h| && ResolveAnchor(db, t.chat).OldestStored?
    requires Tear(h, count, t, p, db, i, j, Position(h, p.anchor))
    ensures Spoils(h, start, count, t, p, db, [TornRound(h, i, Position(h, p.anchor), t.chat)])
  {
    var q := Position(h, p.anchor);
    TornIsOwn(h, count, p.anchor, i, q, t.chat);
    TornTurn(h, t, p, db, i, q);
    TornLeavesGap(h, start, db, t.chat, i, j);
  }

  /** The newest message not fetched yet is stored, and the progress write is refused. */
  function SingleRound(h: seq<WebMessageInfo>, k: nat, chat: string): Round
    requires k < |h| && Keyed(h[k])
  {
    Round(false, true, Page(HistoryBatch([h[k]], k > 0)), if Storable(h[k]) then [RowFor(chat, h[k])] else [],
          Ok, Refused, Ok, false, 0)
  }

  function AfterSingle(h: seq<WebMessageInfo>, k: nat, db: Db, chat: string): Db
    requires k < |h| && Keyed(h[k])
  {
    db.(rows := InsertAll(db.rows, SingleRound(h, k, chat).kept))
  }

  lemma SingleIsOwn(h: seq<WebMessageInfo>, count: i32, a: Anchor, k: nat, chat: string)
    requires ValidHistory(h) && count >= 1 && Position(h, a) == k + 1
    ensures OwnRound(h, count, a, SingleRound(h, k, chat), chat)
  {
    var r, batch := SingleRound(h, k, chat), HistoryBatch([h[k]], k > 0);
    assert h[k..k + 1] == [h[k]];
    assert AnswersFrom(h, a, count, batch, k);
    assert Answers(h, a, count, batch);
    assert h[k] in batch.messages && r.answer == Page(batch);
    if Storable(h[k]) {
      assert RowFits(RowFor(chat, h[k]), h[k], chat) && r.kept[0].id == h[k].id.value;
    }
  }

  lemma SingleTurn(h: seq<WebMessageInfo>, t: Task, p: Paging, db: Db, k: nat)
    requires ValidHistory(h) && 0 < k && Position(h, p.anchor) == k + 1 && GuardQuiet(h, p) && GoesOnAt(h, t, p, k)
    ensures var next := NextPaging(p, MessageAnchor(h[k]).value, HistoryBatch([h[k]], true));
            && Turn(t, p, db, SingleRound(h, k, t.chat)) == Next(next, AfterSingle(h, k, db, t.chat))
            && Position(h, next.anchor) == k && GuardQuiet(h, next) && next.fetched == CountAfter(p.fetched, 1)
  {
    var batch, a := HistoryBatch([h[k]], true), MessageAnchor(h[k]).value;
    assert h[k..k + 1] == [h[k]];
    assert AnswersFrom(h, p.anchor, 1, batch, k) && Answers(h, p.anchor, 1, batch);
    AnswerMovesAnchor(h, p.anchor, 1, batch, k);
    HonestAnswerKeepsQuiet(h, 1, p, batch);
    assert Turn(t, p, db, SingleRound(h, k, t.chat))
        == Move(t, p, AfterSingle(h, k, db, t.chat), a, batch, SingleRound(h, k, t.chat));
  }

  /** Going on at an older message, a run also goes on at the newer ones before it. */
  lemma GoesOnBefore(h: seq<WebMessageInfo>, t: Task, p: Paging, at: nat, k: nat)
    requires ValidHistory(h) && GoesOnAt(h, t, p, at) && at <= k < Position(h, p.anchor)
    ensures GoesOnAt(h, t, p, k)
  {
    if at < k {
      assert Older(KeyOf(h[at]), KeyOf(h[k]));
    }
  }

  /** The tear is still there once the message at `k`, above it, is stored. */
  lemma TearStays(h: seq<WebMessageInfo>, count: i32, t: Task, p: Paging, db: Db, i: nat, j: nat, at: nat, next: Paging)
    requires ValidHistory(h) && Tear(h, count, t, p, db, i, j, at) && at < Position(h, p.anchor)
    requires Position(h, next.anchor) == Position(h, p.anchor) - 1 && next.fetched == CountAfter(p.fetched, 1)
    ensures Tear(h, count, t, next, AfterSingle(h, Position(h, next.anchor), db, t.chat), i, j, at)
  {
    var k := Position(h, next.anchor);
    var after := AfterSingle(h, k, db, t.chat);
    if Storable(h[k]) {
      var row := RowFor(t.chat, h[k]);
      InsertOne(db.rows, row);
      OldestAfterOne(db.rows, row, t.chat);
      assert h[i].id.value != h[k].id.value && h[j].id.value != h[k].id.value;
    }
    assert BecomesOldest(h, i, at, k, after, t.chat);
  }

  /** A tear is a run after which the next one skips a message: page down to it with the progress
      writes refused, and cut there. */
  lemma {:induction false} TearSpoils(h: seq<WebMessageInfo>, start: nat, count: i32, t: Task, p: Paging, db: Db,
                                      i: nat, j: nat, at: nat) returns (rounds: seq<Round>)
    requires ValidHistory(h) && Position(h, p.anchor) <= start <= |h| && GuardQuiet(h, p)
    requires ResolveAnchor(db, t.chat).OldestStored? && Tear(h, count, t, p, db, i, j, at)
    ensures Spoils(h, start, count, t, p, db, rounds)
    decreases Position(h, p.anchor)
  {
    if at == Position(h, p.anchor) {
      TornCutSpoils(h, start, count, t, p, db, i, j);
      rounds := [TornRound(h, i, at, t.chat)];
    } else {
      var k := Position(h, p.anchor) - 1;
      var next := NextPaging(p, MessageAnchor(h[k]).value, HistoryBatch([h[k]], true));
      var after := AfterSingle(h, k, db, t.chat);
      GoesOnBefore(h, t, p, at, k);
      SingleIsOwn(h, count, p.anchor, k, t.chat);
      SingleTurn(h, t, p, db, k);
      TearStays(h, count, t, p, db, i, j, at, next);
      SameChatStart(db, after, t.chat);
      var rest := TearSpoils(h, start, count, t, next, after, i, j, at);
      rounds := [SingleRound(h, k, t.chat)] + rest;
      assert rounds[1..] == rest;
    }
  }

  /** With more rows and the same cursors, a chat that starts from its oldest row still does. */
  lemma SameChatStart(db: Db, after: Db, chat: string)
    requires ResolveAnchor(db, chat).OldestStored? && db.rows <= after.rows && db.cursors == after.cursors
    ensures ResolveAnchor(after, chat).OldestStored?
  {
    OldestIsRow(db.rows, chat);
    OldestIsLeastRow(after.rows, chat, OldestRow(db.rows, chat).value);
  }

  lemma {:induction false} OldestIsLeastRow(rows: seq<MessageRow>, chat: string, row: MessageRow)
    requires row in rows && row.chat == chat
    ensures OldestRow(rows, chat).Some? && OldestRow(rows, chat).value.tsSecs <= row.tsSecs
  {
    var n := |rows| - 1;
    if row == rows[n] {
    } else {
      assert rows == rows[..n] + [rows[n]];
      OldestIsLeastRow(rows[..n], chat, row);
    }
  }

  // ----- without a tear every cut is safe -----

  /** Rows of a batch, however many of them, leave the oldest stored message covered when the
      history offers no tear. */
  lemma UntearableRows(h: seq<WebMessageInfo>, start: nat, count: i32, t: Task, p: Paging, db: Db, r: Round, lo: nat)
    requires ValidHistory(h) && start <= |h| && Covered(h, start, db.rows, p.anchor)
    requires r.answer.Page? && AnswersFrom(h, p.anchor, count, r.answer.batch, lo) && OwnRows(r, t.chat)
    requires OldestCovered(h, start, db, t.chat, Position(h, p.anchor)) && !CanTearHere(h, count, t, p, db)
    ensures NextStartCovered(h, start, db.(rows := InsertAll(db.rows, r.kept)), t.chat)
  {
    var rows', chat := InsertAll(db.rows, r.kept), t.chat;
    MoreRowsCover(h, start, db.rows, r.kept, ResolveAnchor(db, chat).anchor);
    if OldestRow(rows', chat) != OldestRow(db.rows, chat) {
      var i := OldestWithin(h, p.anchor, count, r.answer.batch, lo, db.rows, r, chat);
      var row := OldestRow(rows', chat).value;
      FittingTime(row, h[i], chat);
      PositionOfMessage(h, i);
      assert row in rows' && row.id == h[i].id.value;
      NoTearBelow(h, count, t, p, db, i, rows');
      MoreRowsCover(h, start, db.rows, r.kept, p.anchor);
    }
  }

  lemma NoTearBelow(h: seq<WebMessageInfo>, count: i32, t: Task, p: Paging, db: Db, i: nat, rows': seq<MessageRow>)
    requires ValidHistory(h) && !CanTearHere(h, count, t, p, db)
    requires Position(h, p.anchor) - count <= i < Position(h, p.anchor)
    requires Unstored(h[i], db.rows) && IsStored(rows', h[i].id.value)
    requires forall id :: IsStored(db.rows, id) ==> IsStored(rows', id)
    requires OldestRow(db.rows, t.chat).Some? ==> h[i].timestamp.value < OldestRow(db.rows, t.chat).value.tsSecs
    ensures Kept(h, rows', i, Position(h, p.anchor))
  {
    var q := Position(h, p.anchor);
    forall j | i <= j < q && Storable(h[j]) ensures IsStored(rows', h[j].id.value) {
      if j > i {
        assert !Tear(h, count, t, p, db, i, j, q) && GoesOnAt(h, t, p, q);
      }
    }
  }

  lemma FittingTime(row: MessageRow, m: WebMessageInfo, chat: string)
    requires RowFits(row, m, chat) && Keyed(m)
    ensures row.tsSecs == m.timestamp.value
  {
  }

  /** A turn that ends the run leaves the next one a covered start. */
  lemma UntearableStop(h: seq<WebMessageInfo>, start: nat, count: i32, t: Task, p: Paging, db: Db, r: Round)
    requires ValidHistory(h) && start <= |h| && p.anchor.id != "" && Covered(h, start, db.rows, p.anchor)
    requires OldestCovered(h, start, db, t.chat, Position(h, p.anchor)) && !CanTearHere(h, count, t, p, db)
    requires OwnRound(h, count, p.anchor, r, t.chat) && Turn(t, p, db, r).Stop?
    ensures NextStartCovered(h, start, Turn(t, p, db, r).db, t.chat)
  {
    var asIf, after := AsIf(db, t.chat, p.anchor), Turn(t, p, db, r).db;
    WrittenCursorCovered(h, start, db, t.chat, p.anchor, true, false, None);
    TurnKeeps(h, start, count, t, p, asIf, r);
    AsIfTurn(t, p, db, p.anchor, r);
    if after.cursors == db.cursors {
      RowsOfTurn(t, p, db, r);
      if !r.cancelled && r.ready && r.answer.Page? {
        var lo: nat :| AnswersFrom(h, p.anchor, count, r.answer.batch, lo);
        UntearableRows(h, start, count, t, p, db, r, lo);
        assert ResolveAnchor(after, t.chat) == ResolveAnchor(db.(rows := InsertAll(db.rows, r.kept)), t.chat);
      } else {
        assert ResolveAnchor(after, t.chat) == ResolveAnchor(db, t.chat);
      }
    } else {
      SameCoverage(h, start, Turn(t, p, asIf, r).db, after, t.chat);
    }
  }

  lemma MovedOn(t: Task, p: Paging, db: Db, a: Anchor, batch: HistoryBatch, r: Round)
    requires Move(t, p, db, a, batch, r).Next?
    ensures var next := Move(t, p, db, a, batch, r).paging;
            && next == NextPaging(p, a, batch)
            && EvaluateTarget(t.target, next.fetched, Some(a.tsMs), batch.moreRemain, t.backstop).Continue?
  {
  }

  /** A turn that goes on stored its batch, moved to its oldest message, and goes on from there. */
  lemma NextMoved(t: Task, p: Paging, db: Db, r: Round) returns (a: Anchor)
    requires Turn(t, p, db, r).Next?
    ensures !r.cancelled && r.ready && r.answer.Page? && r.persist.Ok?
    ensures var batch, next := r.answer.batch, Turn(t, p, db, r).paging;
            && OldestAnchor(batch.messages) == Some(a) && next == NextPaging(p, a, batch)
            && EvaluateTarget(t.target, next.fetched, Some(a.tsMs), batch.moreRemain, t.backstop).Continue?
    ensures Turn(t, p, db, r).db.rows == InsertAll(db.rows, r.kept)
  {
    var batch, stored := r.answer.batch, db.(rows := InsertAll(db.rows, r.kept));
    RowsOfTurn(t, p, db, r);
    a := OldestAnchor(batch.messages).value;
    MovedOn(t, p, stored, a, batch, r);
  }

  /** The answer `h[lo..]` led from `p` to `next`, and the run goes on from there. */
  ghost predicate WentOn(h: seq<WebMessageInfo>, count: i32, t: Task, p: Paging, r: Round, next: Paging, lo: nat)
    requires ValidHistory(h)
  {
    && r.answer.Page? && r.persist.Ok? && AnswersFrom(h, p.anchor, count, r.answer.batch, lo)
    && lo == Position(h, next.anchor) < Position(h, p.anchor)
    && next.fetched == CountAfter(p.fetched, Position(h, p.anchor) - lo)
    && (lo > 0 ==> GoesOnAt(h, t, p, lo))
  }

  lemma ShortBatchCounts(fetched: u32, n: nat)
    requires n < U32_SIZE
    ensures SaturatingAdd(fetched, AsU32(n)) == CountAfter(fetched, n)
  {
  }

  lemma PageWentOn(h: seq<WebMessageInfo>, count: i32, t: Task, p: Paging, r: Round, a: Anchor, next: Paging)
    returns (lo: nat)
    requires ValidHistory(h) && r.answer.Page? && r.persist.Ok? && Answers(h, p.anchor, count, r.answer.batch)
    requires OldestAnchor(r.answer.batch.messages) == Some(a) && next == NextPaging(p, a, r.answer.batch)
    requires EvaluateTarget(t.target, next.fetched, Some(a.tsMs), r.answer.batch.moreRemain, t.backstop).Continue?
    ensures WentOn(h, count, t, p, r, next, lo)
  {
    lo :| AnswersFrom(h, p.anchor, count, r.answer.batch, lo);
    AnswerMovesAnchor(h, p.anchor, count, r.answer.batch, lo);
    ShortBatchCounts(p.fetched, |r.answer.batch.messages|);
  }

  /** What a turn that goes on has done. */
  lemma GoingOn(h: seq<WebMessageInfo>, count: i32, t: Task, p: Paging, db: Db, r: Round) returns (lo: nat)
    requires ValidHistory(h) && OwnRound(h, count, p.anchor, r, t.chat) && Turn(t, p, db, r).Next?
    ensures WentOn(h, count, t, p, r, Turn(t, p, db, r).paging, lo)
    ensures Turn(t, p, db, r).db.rows == InsertAll(db.rows, r.kept)
  {
    var a := NextMoved(t, p, db, r);
    lo := PageWentOn(h, count, t, p, r, a, Turn(t, p, db, r).paging);
  }

  /** A storable message of a batch stored whole is a row of the chat, and no older than the
      chat's oldest row. */
  lemma StoredAboveOldest(h: seq<WebMessageInfo>, count: i32, a: Anchor, r: Round, db: Db, chat: string, lo: nat,
                          k: nat)
    requires ValidHistory(h) && OwnRound(h, count, a, r, chat) && r.answer.Page? && r.persist.Ok?
    requires AnswersFrom(h, a, count, r.answer.batch, lo) && lo <= k < Position(h, a) && Unstored(h[k], db.rows)
    ensures var oldest := OldestRow(InsertAll(db.rows, r.kept), chat);
            oldest.Some? && oldest.value.tsSecs <= h[k].timestamp.value
  {
    var rows', batch, q := InsertAll(db.rows, r.kept), r.answer.batch, Position(h, a);
    SameElements(batch.messages, h[lo..q]);
    assert h[lo..q][k - lo] == h[k];
    assert h[k] in batch.messages && IsStored(r.kept, h[k].id.value) && IsStored(rows', h[k].id.value);
    var row :| row in rows' && row.id == h[k].id.value;
    InsertAllExactly(db.rows, r.kept, row);
    assert row in r.kept;
    var i := RowOfBlock(h, lo, q, r, chat, row);
    assert i == k;
    FittingTime(row, h[k], chat);
    OldestIsLeastRow(rows', chat, row);
  }

  /** The messages below a batch are as unstored after it as before. */
  lemma BelowStaysUnstored(h: seq<WebMessageInfo>, count: i32, a: Anchor, r: Round, db: Db, chat: string, lo: nat,
                           k: nat)
    requires ValidHistory(h) && OwnRows(r, chat) && r.answer.Page?
    requires AnswersFrom(h, a, count, r.answer.batch, lo) && k < lo && Unstored(h[k], db.rows)
    ensures Unstored(h[k], InsertAll(db.rows, r.kept))
  {
    forall row | row in r.kept ensures row.id != h[k].id.value {
      var i := RowOfBlock(h, lo, Position(h, a), r, chat, row);
      assert h[k].id.value != h[i].id.value;
    }
  }

  /** Further down, a run goes on as it would have from before the turn. */
  lemma GoesOnSame(h: seq<WebMessageInfo>, t: Task, p: Paging, next: Paging, at: nat)
    requires ValidHistory(h) && at <= Position(h, next.anchor) < Position(h, p.anchor)
    requires next.fetched == CountAfter(p.fetched, Position(h, p.anchor) - Position(h, next.anchor))
    requires at == Position(h, next.anchor) ==> GoesOnAt(h, t, p, at)
    requires GoesOnAt(h, t, next, at)
    ensures GoesOnAt(h, t, p, at)
  {
  }

  /** What would become the oldest row after a turn would have before it. */
  lemma BecameOldest(h: seq<WebMessageInfo>, count: i32, a: Anchor, r: Round, db: Db, chat: string, lo: nat, i: nat,
                     at: nat)
    requires ValidHistory(h) && OwnRound(h, count, a, r, chat) && r.answer.Page? && r.persist.Ok?
    requires AnswersFrom(h, a, count, r.answer.batch, lo) && i < at <= lo && OldestRow(db.rows, chat).Some?
    requires BecomesOldest(h, i, at, lo, db.(rows := InsertAll(db.rows, r.kept)), chat)
    ensures BecomesOldest(h, i, at, Position(h, a), db, chat)
  {
    var rows', oldest := InsertAll(db.rows, r.kept), OldestRow(db.rows, chat).value;
    OldestIsRow(db.rows, chat);
    OldestIsLeastRow(rows', chat, oldest);
    forall k | at <= k < Position(h, a) && Unstored(h[k], db.rows)
      ensures h[i].timestamp.value < h[k].timestamp.value
    {
      if k < lo {
        BelowStaysUnstored(h, count, a, r, db, chat, lo, k);
      } else {
        StoredAboveOldest(h, count, a, r, db, chat, lo, k);
      }
    }
  }

  /** A tear after a turn was a tear before it. */
  lemma TearWasThere(h: seq<WebMessageInfo>, count: i32, t: Task, p: Paging, db: Db, r: Round, next: Paging, lo: nat,
                     i: nat, j: nat, at: nat)
    requires ValidHistory(h) && OwnRound(h, count, p.anchor, r, t.chat) && WentOn(h, count, t, p, r, next, lo)
    requires OldestRow(db.rows, t.chat).Some?
    requires Tear(h, count, t, next, db.(rows := InsertAll(db.rows, r.kept)), i, j, at)
    ensures Tear(h, count, t, p, db, i, j, at)
  {
    GoesOnSame(h, t, p, next, at);
    BecameOldest(h, count, p.anchor, r, db, t.chat, lo, i, at);
  }

  lemma NoNewTear(h: seq<WebMessageInfo>, count: i32, t: Task, p: Paging, db: Db, r: Round, next: Paging, after: Db,
                  lo: nat)
    requires ValidHistory(h) && OwnRound(h, count, p.anchor, r, t.chat) && WentOn(h, count, t, p, r, next, lo)
    requires OldestRow(db.rows, t.chat).Some? && after.rows == InsertAll(db.rows, r.kept)
    requires !CanTear(h, count, t, p, db)
    ensures !CanTear(h, count, t, next, after)
  {
    if i: nat, j: nat, at: nat :| Tear(h, count, t, next, after, i, j, at) {
      assert Tear(h, count, t, next, db.(rows := InsertAll(db.rows, r.kept)), i, j, at);
      TearWasThere(h, count, t, p, db, r, next, lo, i, j, at);
    }
  }

  /** A turn that goes on keeps the frontier covered, and offers no tear that was not there. */
  lemma UntearableNext(h: seq<WebMessageInfo>, start: nat, count: i32, t: Task, p: Paging, db: Db, r: Round)
    requires ValidHistory(h) && start <= |h| && p.anchor.id != "" && Covered(h, start, db.rows, p.anchor)
    requires OldestCovered(h, start, db, t.chat, Position(h, p.anchor)) && !CanTear(h, count, t, p, db)
    requires OwnRound(h, count, p.anchor, r, t.chat) && Turn(t, p, db, r).Next?
    ensures var turned := Turn(t, p, db, r);
            && turned.paging.anchor.id != "" && Covered(h, start, turned.db.rows, turned.paging.anchor)
            && Frontier(h, start, turned.db, t.chat, Position(h, turned.paging.anchor))
            && !CanTear(h, count, t, turned.paging, turned.db)
  {
    var turned := Turn(t, p, db, r);
    OldestTurnKeeps(h, start, count, t, p, db, r);
    var lo := GoingOn(h, count, t, p, db, r);
    NoNewTear(h, count, t, p, db, r, turned.paging, turned.db, lo);
  }

  lemma {:induction false} UntearablePages(h: seq<WebMessageInfo>, start: nat, count: i32, t: Task, p: Paging, db: Db,
                                           rounds: seq<Round>)
    requires ValidHistory(h) && start <= |h| && p.anchor.id != "" && Covered(h, start, db.rows, p.anchor)
    requires CursorCovered(h, start, db, t.chat)
             || (OldestCovered(h, start, db, t.chat, Position(h, p.anchor)) && !CanTear(h, count, t, p, db))
    requires OwnRounds(h, count, t, p, db, rounds)
    ensures NextStartCovered(h, start, Pages(t, p, db, rounds).db, t.chat)
    decreases |rounds|
  {
    if CursorCovered(h, start, db, t.chat) {
      PagesKeep(h, start, count, t, p, db, rounds);
    } else if rounds == [] {
    } else {
      var turned := Turn(t, p, db, rounds[0]);
      if turned.Next? {
        UntearableNext(h, start, count, t, p, db, rounds[0]);
        UntearablePages(h, start, count, t, turned.paging, turned.db, rounds[1..]);
      } else {
        UntearableStop(h, start, count, t, p, db, rounds[0]);
      }
    }
  }

  lemma StartsAtFrontier(h: seq<WebMessageInfo>, t: Task, p: Paging, db: Db)
    requires ValidHistory(h) && p.anchor.id != "" && !ResolveAnchor(db, t.chat).Unanchored?
    requires p.anchor == ResolveAnchor(db, t.chat).anchor && (t.chat in db.cursors ==> !db.cursors[t.chat].exhausted)
    ensures var q := Position(h, p.anchor);
            && Covered(h, q, db.rows, p.anchor)
            && (if ResolveAnchor(db, t.chat).FromCursor? then CursorCovered(h, q, db, t.chat)
                else OldestCovered(h, q, db, t.chat, q))
  {
  }

  /**
   A run can be cut anywhere, even in the middle of storing a batch and with any of its writes
   refused, and the next run still starts from a covered anchor: exactly when the chat has a
   usable cursor or its history offers no tear.
   */
  lemma CutSafeExactly(h: seq<WebMessageInfo>, cfg: Config, db: Db, job: nat)
    requires ValidHistory(h) && job < |db.jobs| && Begin(db, job, cfg).Open?
    requires Begin(db, job, cfg).paging.anchor.id != ""
    ensures var t, p := Begin(db, job, cfg).task, Begin(db, job, cfg).paging;
            CutSafe(h, cfg.batchSize, t, p, db)
            <==> ResolveAnchor(db, t.chat).FromCursor? || !CanTear(h, cfg.batchSize, t, p, db)
  {
    var t, p, count := Begin(db, job, cfg).task, Begin(db, job, cfg).paging, cfg.batchSize;
    var q := Position(h, p.anchor);
    if ResolveAnchor(db, t.chat).OldestStored? && CanTear(h, count, t, p, db) {
      var i: nat, j: nat, at: nat :| Tear(h, count, t, p, db, i, j, at);
      var rounds := TearSpoils(h, q, count, t, p, db, i, j, at);
      assert OwnRounds(h, count, t, p, db, rounds);
    } else {
      StartsAtFrontier(h, t, p, db);
      forall rounds | OwnRounds(h, count, t, p, db, rounds)
        ensures NextStartCovered(h, q, Pages(t, p, db, rounds).db, t.chat)
      {
        UntearablePages(h, q, count, t, p, db, rounds);
      }
    }
  }

  /** The same when no cursor write is refused. */
  ghost predicate RecordedCutSafe(h: seq<WebMessageInfo>, count: i32, t: Task, p: Paging, db: Db)
    requires ValidHistory(h)
  {
    forall rounds :: OwnRounds(h, count, t, p, db, rounds) && NoneRefused(rounds) ==>
      NextStartCovered(h, Position(h, p.anchor), Pages(t, p, db, rounds).db, t.chat)
  }

  predicate NoneRefused(rounds: seq<Round>) {
    forall i :: 0 <= i < |rounds| ==> !rounds[i].save.Refused?
  }

  /** A turn that goes on with its progress recorded leaves a usable cursor. */
  lemma RecordedNext(h: seq<WebMessageInfo>, start: nat, count: i32, t: Task, p: Paging, db: Db, r: Round)
    requires ValidHistory(h) && start <= |h| && p.anchor.id != "" && Covered(h, start, db.rows, p.anchor)
    requires OldestCovered(h, start, db, t.chat, Position(h, p.anchor))
    requires OwnRound(h, count, p.anchor, r, t.chat) && !r.save.Refused? && Turn(t, p, db, r).Next?
    ensures var turned := Turn(t, p, db, r);
            && turned.paging.anchor.id != "" && Covered(h, start, turned.db.rows, turned.paging.anchor)
            && CursorCovered(h, start, turned.db, t.chat)
  {
    var turned := Turn(t, p, db, r);
    OldestTurnKeeps(h, start, count, t, p, db, r);
    var lo := GoingOn(h, count, t, p, db, r);
    RecordedCursor(t, p, db, r);
  }

  lemma RecordedCursor(t: Task, p: Paging, db: Db, r: Round)
    requires Turn(t, p, db, r).Next? && !r.save.Refused? && Turn(t, p, db, r).paging.anchor.id != ""
    ensures ResolveAnchor(Turn(t, p, db, r).db, t.chat).FromCursor?
  {
  }

  lemma RecordedPages(h: seq<WebMessageInfo>, start: nat, count: i32, t: Task, p: Paging, db: Db, rounds: seq<Round>)
    requires ValidHistory(h) && start <= |h| && p.anchor.id != "" && Covered(h, start, db.rows, p.anchor)
    requires CursorCovered(h, start, db, t.chat)
             || (OldestCovered(h, start, db, t.chat, Position(h, p.anchor)) && !CanTearHere(h, count, t, p, db))
    requires OwnRounds(h, count, t, p, db, rounds) && NoneRefused(rounds)
    ensures NextStartCovered(h, start, Pages(t, p, db, rounds).db, t.chat)
  {
    if CursorCovered(h, start, db, t.chat) {
      PagesKeep(h, start, count, t, p, db, rounds);
    } else if rounds != [] {
      var turned := Turn(t, p, db, rounds[0]);
      if turned.Next? {
        RecordedNext(h, start, count, t, p, db, rounds[0]);
        PagesKeep(h, start, count, t, turned.paging, turned.db, rounds[1..]);
      } else {
        UntearableStop(h, start, count, t, p, db, rounds[0]);
      }
    }
  }

  /** When the cursor writes go through, only the first answer matters. */
  lemma RecordedCutSafeExactly(h: seq<WebMessageInfo>, cfg: Config, db: Db, job: nat)
    requires ValidHistory(h) && job < |db.jobs| && Begin(db, job, cfg).Open?
    requires Begin(db, job, cfg).paging.anchor.id != ""
    ensures var t, p := Begin(db, job, cfg).task, Begin(db, job, cfg).paging;
            RecordedCutSafe(h, cfg.batchSize, t, p, db)
            <==> ResolveAnchor(db, t.chat).FromCursor? || !CanTearHere(h, cfg.batchSize, t, p, db)
  {
    var t, p, count := Begin(db, job, cfg).task, Begin(db, job, cfg).paging, cfg.batchSize;
    var q := Position(h, p.anchor);
    if ResolveAnchor(db, t.chat).OldestStored? && CanTearHere(h, count, t, p, db) {
      var i: nat, j: nat :| Tear(h, count, t, p, db, i, j, q);
      TornCutSpoils(h, q, count, t, p, db, i, j);
      var rounds := [TornRound(h, i, q, t.chat)];
      assert OwnRounds(h, count, t, p, db, rounds) && NoneRefused(rounds);
    } else {
      StartsAtFrontier(h, t, p, db);
      forall rounds | OwnRounds(h, count, t, p, db, rounds) && NoneRefused(rounds)
        ensures NextStartCovered(h, q, Pages(t, p, db, rounds).db, t.chat)
      {
        RecordedPages(h, q, count, t, p, db, rounds);
      }
    }
  }
}
