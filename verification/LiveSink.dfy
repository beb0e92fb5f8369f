/**
 The backfill worker's real sink (src/bridge.rs, `LiveBatchSink`) never reports a failed insert.
 This is what that costs the worker: the frontier stays covered exactly when no insert fails.
 */
module LiveSink {
  import opened Wrappers
  import opened History
  import opened PhoneHistory
  import opened Persist
  import Backfill
  import BackfillNoGaps

  lemma OnceOnly<T>(t: seq<T>, k: nat)
    requires k < |t| && forall i, j :: 0 <= i < j < |t| ==> t[i] != t[j]
    ensures multiset(t)[t[k]] == 1
  {
    assert t == t[..k] + [t[k]] + t[k + 1..];
    assert t[k] !in t[..k] && t[k] !in t[k + 1..];
  }

  /** Any order of distinct elements is distinct. */
  lemma NoTwins<T>(s: seq<T>, t: seq<T>, i: nat, j: nat)
    requires multiset(s) == multiset(t) && i < j < |s|
    requires forall k, l :: 0 <= k < l < |t| ==> t[k] != t[l]
    ensures s[i] != s[j]
  {
    var x := s[j];
    assert s == s[..j] + [x] + s[j + 1..];
    if s[i] == x {
      assert x in s[..j];
      assert multiset(s)[x] == multiset(s[..j])[x] + 1 + multiset(s[j + 1..])[x];
      assert x in multiset(t);
      var k :| 0 <= k < |t| && t[k] == x;
      OnceOnly(t, k);
    }
  }

  /** The extractions of an answer have distinct ids, like the history they come from. */
  lemma AnswerIsDistinct(h: seq<WebMessageInfo>, lo: nat, hi: nat, messages: seq<WebMessageInfo>,
                         chat: string, source: string)
    requires ValidHistory(h) && lo <= hi <= |h| && multiset(messages) == multiset(h[lo..hi])
    ensures DistinctRows(ExtractAll(chat, source, messages))
  {
    var es := ExtractAll(chat, source, messages);
    SameElements(messages, h[lo..hi]);
    forall i, j | 0 <= i < j < |es| && es[i].Some? && es[j].Some?
      ensures es[i].value.row.id != es[j].value.row.id
    {
      NoTwins(messages, h[lo..hi], i, j);
      assert messages[i] in h[lo..hi] && messages[j] in h[lo..hi];
      var k :| lo <= k < hi && h[k] == messages[i];
      var l :| lo <= l < hi && h[l] == messages[j];
      assert k != l;
    }
  }

  /** The insert at `k` went through and was this id's. */
  predicate OfferedAt(es: seq<Option<Extraction>>, attempts: seq<Attempt>, k: nat, id: string)
    requires |attempts| == |es|
  {
    k < |es| && es[k].Some? && attempts[k].insertOk && es[k].value.row.id == id
  }

  lemma {:induction false} OfferedHas(es: seq<Option<Extraction>>, attempts: seq<Attempt>, id: string)
    requires |attempts| == |es|
    ensures IsStored(Offered(es, attempts), id) <==> exists k: nat :: OfferedAt(es, attempts, k, id)
  {
    if es == [] {
    } else {
      var n := |es| - 1;
      var front := Offered(es[..n], attempts[..n]);
      OfferedHas(es[..n], attempts[..n], id);
      assert forall k: nat :: OfferedAt(es[..n], attempts[..n], k, id) <==> k < n && OfferedAt(es, attempts, k, id);
      if es[n].Some? && attempts[n].insertOk {
        var all := front + [es[n].value.row];
        assert Offered(es, attempts) == all;
        assert forall row :: row in all <==> row in front || row == es[n].value.row;
        assert es[n].value.row.id == id ==> OfferedAt(es, attempts, n, id);
      }
    }
  }

  /** With distinct ids, a message has a row afterwards exactly when it had one or its insert
      went through. */
  lemma StoredExactly(p: Persisted, es: seq<Option<Extraction>>, attempts: seq<Attempt>, k: nat)
    requires |attempts| == |es| && DistinctRows(es) && k < |es| && es[k].Some?
    ensures IsStored(PersistAll(p, es, attempts).tables.rows, es[k].value.row.id)
            <==> IsStored(p.tables.rows, es[k].value.row.id) || attempts[k].insertOk
  {
    var id := es[k].value.row.id;
    PersistInsertsOffered(p, es, attempts);
    OfferedHas(es, attempts, id);
    if attempts[k].insertOk {
      assert OfferedAt(es, attempts, k, id);
    }
  }

  /** The insert of every storable message that has no row yet went through. */
  predicate NewOnesInserted(rows: seq<MessageRow>, messages: seq<WebMessageInfo>, attempts: seq<Attempt>)
    requires |attempts| == |messages|
  {
    forall k :: 0 <= k < |messages| && Storable(messages[k]) && !IsStored(rows, messages[k].id.value) ==>
      attempts[k].insertOk
  }

  /** The block an answer came from is stored exactly when its new messages were inserted. */
  lemma BlockStoredExactly(h: seq<WebMessageInfo>, lo: nat, hi: nat, messages: seq<WebMessageInfo>,
                           p: Persisted, chat: string, source: string, attempts: seq<Attempt>)
    requires ValidHistory(h) && lo <= hi <= |h| && |attempts| == |messages|
    requires multiset(messages) == multiset(h[lo..hi])
    ensures BackfillNoGaps.Kept(h, PersistAll(p, ExtractAll(chat, source, messages), attempts).tables.rows, lo, hi)
            <==> NewOnesInserted(p.tables.rows, messages, attempts)
  {
    var es := ExtractAll(chat, source, messages);
    var rows' := PersistAll(p, es, attempts).tables.rows;
    SameElements(messages, h[lo..hi]);
    AnswerIsDistinct(h, lo, hi, messages, chat, source);
    forall k | 0 <= k < |messages| && Storable(messages[k])
      ensures IsStored(rows', messages[k].id.value)
              <==> IsStored(p.tables.rows, messages[k].id.value) || attempts[k].insertOk
    {
      assert es[k] == Extract(chat, source, messages[k]);
      StoredExactly(p, es, attempts, k);
    }
    if BackfillNoGaps.Kept(h, rows', lo, hi) {
      forall k | 0 <= k < |messages| && Storable(messages[k]) ensures IsStored(rows', messages[k].id.value) {
        assert messages[k] in h[lo..hi];
      }
    }
    if NewOnesInserted(p.tables.rows, messages, attempts) {
      forall i | lo <= i < hi && Storable(h[i]) ensures IsStored(rows', h[i].id.value) {
        assert h[i] == h[lo..hi][i - lo] && h[i] in messages;
        var k :| 0 <= k < |messages| && messages[k] == h[i];
      }
    }
  }

  /**
   The sink reports success whatever its inserts do. After a batch, the frontier at the batch's
   oldest message is covered exactly when the insert of every storable message that had no row
   yet went through.
   */
  lemma LiveSinkCoversExactly(h: seq<WebMessageInfo>, start: nat, a: Anchor, count: int, batch: HistoryBatch, lo: nat,
                              p: Persisted, chat: string, source: string, attempts: seq<Attempt>)
    requires ValidHistory(h) && start <= |h| && |attempts| == |batch.messages|
    requires AnswersFrom(h, a, count, batch, lo) && lo < Position(h, a)
    requires BackfillNoGaps.Covered(h, start, p.tables.rows, a)
    ensures var q := PersistAll(p, ExtractAll(chat, source, batch.messages), attempts);
            BackfillNoGaps.Covered(h, start, q.tables.rows, MessageAnchor(h[lo]).value)
            <==> NewOnesInserted(p.tables.rows, batch.messages, attempts)
  {
    var es := ExtractAll(chat, source, batch.messages);
    var rows' := PersistAll(p, es, attempts).tables.rows;
    PositionOfMessage(h, lo);
    BlockStoredExactly(h, lo, Position(h, a), batch.messages, p, chat, source, attempts);
    PersistConserves(p, es, attempts);
    forall i | Position(h, a) <= i < start && Storable(h[i]) ensures IsStored(rows', h[i].id.value) {
      StoredStays(p.tables.rows, rows', h[i].id.value);
    }
  }

  // ----- what the worker's statements ask of a sink -----

  /** A stored row stands for its message: a fetch that starts from the row starts exactly at
      the message, provided the message has a timestamp. */
  lemma RowKeepsAnchor(chat: string, source: string, m: WebMessageInfo)
    requires Storable(m)
    ensures BackfillNoGaps.RowFits(Extract(chat, source, m).value.row, m, chat) <==> m.timestamp.Some?
  {
  }

  lemma {:induction false} OfferedAre(es: seq<Option<Extraction>>, attempts: seq<Attempt>,
                                      row: MessageRow) returns (k: nat)
    requires |attempts| == |es| && row in Offered(es, attempts)
    ensures k < |es| && es[k].Some? && es[k].value.row == row
  {
    var n := |es| - 1;
    if row in Offered(es[..n], attempts[..n]) {
      k := OfferedAre(es[..n], attempts[..n], row);
    } else {
      k := n;
    }
  }

  /** This sink stores nothing but rows of the chat for the messages of the answer. */
  lemma SinkStoresOwnRows(r: Backfill.Round, chat: string, source: string, attempts: seq<Attempt>)
    requires r.answer.Page? && |attempts| == |r.answer.batch.messages|
    requires forall m :: m in r.answer.batch.messages ==> Keyed(m)
    requires r.kept == Offered(ExtractAll(chat, source, r.answer.batch.messages), attempts)
    ensures BackfillNoGaps.OwnRows(r, chat)
  {
    var messages := r.answer.batch.messages;
    var es := ExtractAll(chat, source, messages);
    forall row | row in r.kept
      ensures exists m :: m in messages && Storable(m) && BackfillNoGaps.RowFits(row, m, chat)
    {
      var k := OfferedAre(es, attempts, row);
      assert messages[k] in messages;
      RowKeepsAnchor(chat, source, messages[k]);
    }
  }

  /**
   A round with this sink meets the no-gap statements' demand on sinks exactly when the insert of
   every storable message of its answer went through.
   */
  lemma SinkCompleteExactly(r: Backfill.Round, chat: string, source: string, attempts: seq<Attempt>)
    requires r.answer.Page? && r.persist.Ok? && |attempts| == |r.answer.batch.messages|
    requires DistinctRows(ExtractAll(chat, source, r.answer.batch.messages))
    requires r.kept == Offered(ExtractAll(chat, source, r.answer.batch.messages), attempts)
    ensures BackfillNoGaps.SinkComplete(r) <==>
              forall k :: 0 <= k < |attempts| && Storable(r.answer.batch.messages[k]) ==> attempts[k].insertOk
  {
    var messages := r.answer.batch.messages;
    var es := ExtractAll(chat, source, messages);
    forall k | 0 <= k < |es| && es[k].Some?
      ensures IsStored(r.kept, messages[k].id.value) <==> attempts[k].insertOk
    {
      OfferedHas(es, attempts, messages[k].id.value);
      if attempts[k].insertOk {
        assert OfferedAt(es, attempts, k, messages[k].id.value);
      }
    }
    assert forall k :: 0 <= k < |messages| ==> messages[k] in messages && es[k] == Extract(chat, source, messages[k]);
  }
}
