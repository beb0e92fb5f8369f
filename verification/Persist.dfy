/**
 Storing a run of history messages (src/bridge.rs, `persist_history_messages`, the backfill
 sink's body): one insert-if-new per message, and a tally of what became of each.
 */
module Persist {
  import opened Wrappers
  import opened History
  import opened PhoneHistory
  import opened Content
  import EmbedText

  datatype Tables = Tables(rows: seq<MessageRow>, mediaRefs: map<string, MediaRef>)

  datatype Counts =
    Counts(stored: nat, duplicates: nat, unstorable: nat, failed: nat, mediaRefs: nat, mediaRefsFailed: nat)

  const ZERO := Counts(0, 0, 0, 0, 0, 0)
  function Add(a: Counts, b: Counts): Counts {
    Counts(a.stored + b.stored, a.duplicates + b.duplicates, a.unstorable + b.unstorable, a.failed + b.failed,
           a.mediaRefs + b.mediaRefs, a.mediaRefsFailed + b.mediaRefsFailed)
  }

  /** Whether a message's two possible writes go through. */
  datatype Attempt = Attempt(insertOk: bool, mediaOk: bool)

  /** The size the label shows: the file length the reference gives, when it is one. */
  function MediaLength(r: Option<MediaRef>): Option<nat> {
    if r.Some? && r.value.fileLength.Some? && r.value.fileLength.value >= 0 then Some(r.value.fileLength.value)
    else None
  }

  function RowOf(chat: string, m: WebMessageInfo, source: string): MessageRow
    requires Storable(m)
  {
    var p := m.payload.value;
    MessageRow(chat, m.id.value, m.fromMe.GetOr(false), AsI64(m.timestamp.GetOr(0)), Kind(p.content),
               EmbedText.StoredBody(p.content, MediaLength(p.mediaRef)), source, Embeddable(p.content))
  }

  /** What the extractor makes of one message: a row to insert, and a media reference if it has media. */
  datatype Extraction = Extraction(row: MessageRow, mediaRef: Option<MediaRef>)

  function Extract(chat: string, source: string, m: WebMessageInfo): (e: Option<Extraction>)
    ensures e.Some? <==> Storable(m)
    ensures e.Some? ==> e.value.row.id == m.id.value && e.value.row.chat == chat && e.value.row.source == source
  {
    if Storable(m) then Some(Extraction(RowOf(chat, m, source), m.payload.value.mediaRef)) else None
  }

  function ExtractAll(chat: string, source: string, messages: seq<WebMessageInfo>): (r: seq<Option<Extraction>>)
    ensures |r| == |messages|
    ensures forall i :: 0 <= i < |r| ==> r[i] == Extract(chat, source, messages[i])
  {
    seq(|messages|, i requires 0 <= i < |messages| => Extract(chat, source, messages[i]))
  }

  datatype Persisted = Persisted(tables: Tables, counts: Counts)

  /** The row is inserted. */
  predicate Inserts(t: Tables, e: Option<Extraction>, a: Attempt) {
    e.Some? && a.insertOk && !IsStored(t.rows, e.value.row.id)
  }

  /** One message: its row if new, then its media reference if the row was new. */
  function TablesAfter(t: Tables, e: Option<Extraction>, a: Attempt): Tables {
    if !Inserts(t, e, a) then t
    else
      Tables(t.rows + [e.value.row],
             if e.value.mediaRef.Some? && a.mediaOk
             then WithRef(t.mediaRefs, e.value.row.id, e.value.mediaRef.value) else t.mediaRefs)
  }

  /** What became of one message. */
  datatype Fate = Unstorable | Failed | Duplicate | Stored(media: MediaFate)
  datatype MediaFate = NoMedia | MediaStored | MediaFailed

  function FateOf(t: Tables, e: Option<Extraction>, a: Attempt): Fate {
    if e.None? then Unstorable
    else if !a.insertOk then Failed
    else if !Inserts(t, e, a) then Duplicate
    else Stored(if e.value.mediaRef.None? then NoMedia else if a.mediaOk then MediaStored else MediaFailed)
  }

  function One(b: bool): nat { if b then 1 else 0 }

  function Tally(c: Counts, f: Fate): Counts {
    Counts(c.stored + One(f.Stored?), c.duplicates + One(f.Duplicate?), c.unstorable + One(f.Unstorable?),
           c.failed + One(f.Failed?), c.mediaRefs + One(f.Stored? && f.media.MediaStored?),
           c.mediaRefsFailed + One(f.Stored? && f.media.MediaFailed?))
  }

  /** `INSERT OR IGNORE` of a media reference. */
  function WithRef(refs: map<string, MediaRef>, id: string, media: MediaRef): map<string, MediaRef> {
    if id in refs then refs else refs[id := media]
  }

  /** One more message after a pass. */
  function Then(p: Persisted, e: Option<Extraction>, a: Attempt): Persisted {
    Persisted(TablesAfter(p.tables, e, a), Tally(p.counts, FateOf(p.tables, e, a)))
  }

  /** A run of messages, from any tables and tally. */
  function PersistAll(p: Persisted, es: seq<Option<Extraction>>, attempts: seq<Attempt>): Persisted
    requires |attempts| == |es|
    decreases |es|
  {
    if es == [] then p
    else
      var n := |es| - 1;
      Then(PersistAll(p, es[..n], attempts[..n]), es[n], attempts[n])
  }

  class MessageStore {
    var rows: seq<MessageRow>
    var mediaRefs: map<string, MediaRef>

    ghost function Value(): Tables
      reads this
    {
      Tables(rows, mediaRefs)
    }

    constructor (t: Tables)
      ensures Value() == t
    {
      rows, mediaRefs := t.rows, t.mediaRefs;
    }

    method PersistMessage(e: Option<Extraction>, a: Attempt, before: Counts) returns (counts: Counts)
      modifies this
      ensures Persisted(Value(), counts) == Then(Persisted(old(Value()), before), e, a)
    {
      counts := before;
      if e.None? {
        return counts.(unstorable := counts.unstorable + 1);
      }
      if !a.insertOk {
        return counts.(failed := counts.failed + 1);
      }
      var row := e.value.row;
      if IsStored(rows, row.id) {
        return counts.(duplicates := counts.duplicates + 1);
      }
      rows := rows + [row];
      counts := counts.(stored := counts.stored + 1);
      if e.value.mediaRef.Some? {
        if a.mediaOk {
          mediaRefs := WithRef(mediaRefs, row.id, e.value.mediaRef.value);
          counts := counts.(mediaRefs := counts.mediaRefs + 1);
        } else {
          counts := counts.(mediaRefsFailed := counts.mediaRefsFailed + 1);
        }
      }
    }

    method PersistMessages(chat: string, source: string, messages: seq<WebMessageInfo>, attempts: seq<Attempt>,
                           before: Counts) returns (counts: Counts)
      requires |attempts| == |messages|
      modifies this
      ensures Persisted(Value(), counts)
           == PersistAll(Persisted(old(Value()), before), ExtractAll(chat, source, messages), attempts)
    {
      ghost var es := ExtractAll(chat, source, messages);
      counts := before;
      ghost var start := Persisted(Value(), counts);
      for i := 0 to |messages|
        invariant Persisted(Value(), counts) == PersistAll(start, es[..i], attempts[..i])
      {
        Snoc(start, es[..i], attempts[..i], es[i], attempts[i]);
        assert es[..i + 1] == es[..i] + [es[i]] && attempts[..i + 1] == attempts[..i] + [attempts[i]];
        counts := PersistMessage(Extract(chat, source, messages[i]), attempts[i], counts);
      }
      assert es[..|messages|] == es && attempts[..|messages|] == attempts;
    }

    /** A pass with a tally of its own. */
    method PersistHistory(chat: string, source: string, messages: seq<WebMessageInfo>, attempts: seq<Attempt>)
      returns (counts: Counts)
      requires |attempts| == |messages|
      modifies this
      ensures Persisted(Value(), counts)
           == PersistAll(Persisted(old(Value()), ZERO), ExtractAll(chat, source, messages), attempts)
    {
      counts := PersistMessages(chat, source, messages, attempts, ZERO);
    }
  }

  lemma Snoc(p: Persisted, es: seq<Option<Extraction>>, attempts: seq<Attempt>, e: Option<Extraction>, a: Attempt)
    requires |attempts| == |es|
    ensures PersistAll(p, es + [e], attempts + [a]) == Then(PersistAll(p, es, attempts), e, a)
  {
    assert (es + [e])[..|es|] == es && (attempts + [a])[..|es|] == attempts;
  }

  // ----- conservation -----

  function Total(c: Counts): nat { c.stored + c.duplicates + c.unstorable + c.failed }

  ghost predicate KeepsRefs(before: map<string, MediaRef>, after: map<string, MediaRef>) {
    forall id :: id in before ==> id in after && after[id] == before[id]
  }

  /** What going over `n` messages may do. */
  ghost predicate Conserves(p: Persisted, q: Persisted, n: nat) {
    && Total(q.counts) == Total(p.counts) + n
    && q.counts.mediaRefs + q.counts.mediaRefsFailed - (p.counts.mediaRefs + p.counts.mediaRefsFailed)
       <= q.counts.stored - p.counts.stored
    && q.counts.failed >= p.counts.failed
    && |q.tables.rows| - |p.tables.rows| == q.counts.stored - p.counts.stored
    && p.tables.rows <= q.tables.rows
    && KeepsRefs(p.tables.mediaRefs, q.tables.mediaRefs)
  }

  lemma OneKeeps(t: Tables, e: Option<Extraction>, a: Attempt)
    ensures |TablesAfter(t, e, a).rows| == |t.rows| + if Inserts(t, e, a) then 1 else 0
    ensures t.rows <= TablesAfter(t, e, a).rows
    ensures KeepsRefs(t.mediaRefs, TablesAfter(t, e, a).mediaRefs)
  {
  }

  lemma ConservesThen(p: Persisted, q: Persisted, e: Option<Extraction>, a: Attempt, n: nat)
    requires Conserves(p, q, n)
    ensures Conserves(p, Then(q, e, a), n + 1)
  {
    OneKeeps(q.tables, e, a);
  }

  /** Every message is counted once, every new row is counted as stored, and no row or media
      reference is lost or changed. */
  lemma {:induction false} PersistConserves(p: Persisted, es: seq<Option<Extraction>>, attempts: seq<Attempt>)
    requires |attempts| == |es|
    ensures Conserves(p, PersistAll(p, es, attempts), |es|)
  {
    if es == [] {
    } else {
      var n := |es| - 1;
      PersistConserves(p, es[..n], attempts[..n]);
      ConservesThen(p, PersistAll(p, es[..n], attempts[..n]), es[n], attempts[n], n);
    }
  }

  lemma AppendsSnoc(p: Persisted, a: seq<Option<Extraction>>, b: seq<Option<Extraction>>, aa: seq<Attempt>,
                    ab: seq<Attempt>,
                    e: Option<Extraction>, x: Attempt)
    requires |aa| == |a| && |ab| == |b|
    requires PersistAll(p, a + b, aa + ab) == PersistAll(PersistAll(p, a, aa), b, ab)
    ensures PersistAll(p, a + (b + [e]), aa + (ab + [x])) == PersistAll(PersistAll(p, a, aa), b + [e], ab + [x])
  {
    Snoc(p, a + b, aa + ab, e, x);
    Snoc(PersistAll(p, a, aa), b, ab, e, x);
    assert a + (b + [e]) == (a + b) + [e] && aa + (ab + [x]) == (aa + ab) + [x];
  }

  /** Storing a concatenation is storing one run and then the other. */
  lemma {:induction false} PersistAppends(p: Persisted, a: seq<Option<Extraction>>, b: seq<Option<Extraction>>,
                                          aa: seq<Attempt>, ab: seq<Attempt>)
    requires |aa| == |a| && |ab| == |b|
    ensures PersistAll(p, a + b, aa + ab) == PersistAll(PersistAll(p, a, aa), b, ab)
    decreases |b|
  {
    if b == [] {
      assert a + b == a && aa + ab == aa;
    } else {
      var n := |b| - 1;
      var front, attempts := b[..n], ab[..n];
      PersistAppends(p, a, front, aa, attempts);
      assert b == front + [b[n]] && ab == attempts + [ab[n]];
      AppendsSnoc(p, a, front, aa, attempts, b[n], ab[n]);
    }
  }

  lemma ThenAdds(t: Tables, c: Counts, d: Counts, e: Option<Extraction>, a: Attempt)
    ensures var one := Then(Persisted(t, d), e, a);
            Then(Persisted(t, Add(c, d)), e, a) == Persisted(one.tables, Add(c, one.counts))
  {
  }

  /** The tally of a run does not depend on where it starts: two runs' counts add up. */
  lemma {:induction false} CountsAdd(t: Tables, c: Counts, d: Counts, es: seq<Option<Extraction>>,
                                     attempts: seq<Attempt>)
    requires |attempts| == |es|
    ensures var alone := PersistAll(Persisted(t, d), es, attempts);
            PersistAll(Persisted(t, Add(c, d)), es, attempts) == Persisted(alone.tables, Add(c, alone.counts))
    decreases |es|
  {
    if es == [] {
    } else {
      var n := |es| - 1;
      CountsAdd(t, c, d, es[..n], attempts[..n]);
      var alone := PersistAll(Persisted(t, d), es[..n], attempts[..n]);
      ThenAdds(alone.tables, c, alone.counts, es[n], attempts[n]);
    }
  }

  // ----- a second pass -----

  ghost predicate AllStored(rows: seq<MessageRow>, es: seq<Option<Extraction>>) {
    forall e :: e in es && e.Some? ==> IsStored(rows, e.value.row.id)
  }

  lemma StoredStays(rows: seq<MessageRow>, rows': seq<MessageRow>, id: string)
    requires rows <= rows' && IsStored(rows, id)
    ensures IsStored(rows', id)
  {
    var r :| r in rows && r.id == id;
    assert r in rows';
  }

  lemma OneStores(t: Tables, e: Option<Extraction>, a: Attempt)
    requires e.Some? && a.insertOk
    ensures IsStored(TablesAfter(t, e, a).rows, e.value.row.id)
  {
    if !IsStored(t.rows, e.value.row.id) {
      assert e.value.row in TablesAfter(t, e, a).rows;
    }
  }

  lemma OneMoreStored(t: Tables, es: seq<Option<Extraction>>, e: Option<Extraction>, a: Attempt)
    requires AllStored(t.rows, es) && (e.Some? ==> a.insertOk)
    ensures AllStored(TablesAfter(t, e, a).rows, es + [e])
  {
    var after := TablesAfter(t, e, a);
    OneKeeps(t, e, a);
    forall x | x in es + [e] && x.Some? ensures IsStored(after.rows, x.value.row.id) {
      if x in es {
        StoredStays(t.rows, after.rows, x.value.row.id);
      } else {
        OneStores(t, e, a);
      }
    }
  }

  /** A pass without failed inserts stores everything storable. */
  lemma {:induction false} GoodPassStoresAll(p: Persisted, es: seq<Option<Extraction>>, attempts: seq<Attempt>)
    requires |attempts| == |es| && PersistAll(p, es, attempts).counts.failed == p.counts.failed
    ensures AllStored(PersistAll(p, es, attempts).tables.rows, es)
  {
    if es == [] {
    } else {
      var n := |es| - 1;
      var before := PersistAll(p, es[..n], attempts[..n]);
      PersistConserves(p, es[..n], attempts[..n]);
      GoodPassStoresAll(p, es[..n], attempts[..n]);
      OneMoreStored(before.tables, es[..n], es[n], attempts[n]);
      assert es == es[..n] + [es[n]];
    }
  }

  /** A pass over stored messages changes nothing. */
  lemma {:induction false} StoredPassChangesNothing(p: Persisted, es: seq<Option<Extraction>>, attempts: seq<Attempt>)
    requires |attempts| == |es| && AllStored(p.tables.rows, es)
    ensures var q := PersistAll(p, es, attempts);
            q.tables == p.tables && q.counts.stored == p.counts.stored
            && q.counts.mediaRefs == p.counts.mediaRefs && q.counts.mediaRefsFailed == p.counts.mediaRefsFailed
  {
    if es == [] {
    } else {
      var n := |es| - 1;
      assert es == es[..n] + [es[n]];
      StoredPassChangesNothing(p, es[..n], attempts[..n]);
    }
  }

  /** Idempotent: after a pass without failed inserts, a second one over the same messages stores
      nothing and leaves every row as first written, whatever its own writes would do. */
  lemma SecondPassStoresNothing(p: Persisted, es: seq<Option<Extraction>>, attempts: seq<Attempt>, again: seq<Attempt>)
    requires |attempts| == |es| == |again|
    requires PersistAll(p, es, attempts).counts.failed == p.counts.failed
    ensures var first := PersistAll(p, es, attempts);
            var second := PersistAll(first, es, again);
            second.tables == first.tables && second.counts.stored == first.counts.stored
  {
    GoodPassStoresAll(p, es, attempts);
    StoredPassChangesNothing(PersistAll(p, es, attempts), es, again);
  }

  // ----- what the backfill worker relies on -----

  lemma OneAddsOnlyItsId(t: Tables, e: Option<Extraction>, a: Attempt, id: string)
    requires !IsStored(t.rows, id) && (e.Some? && a.insertOk ==> e.value.row.id != id)
    ensures !IsStored(TablesAfter(t, e, a).rows, id)
  {
  }

  /** A pass adds no row for an id none of its messages has. */
  lemma {:induction false} OnlyTheirOwnRows(p: Persisted, es: seq<Option<Extraction>>, attempts: seq<Attempt>,
                                            id: string)
    requires |attempts| == |es| && !IsStored(p.tables.rows, id)
    requires forall e :: e in es && e.Some? ==> e.value.row.id != id
    ensures !IsStored(PersistAll(p, es, attempts).tables.rows, id)
  {
    if es == [] {
    } else {
      var n := |es| - 1;
      assert es == es[..n] + [es[n]];
      OnlyTheirOwnRows(p, es[..n], attempts[..n], id);
      OneAddsOnlyItsId(PersistAll(p, es[..n], attempts[..n]).tables, es[n], attempts[n], id);
    }
  }

  ghost predicate DistinctRows(es: seq<Option<Extraction>>) {
    forall i, j :: 0 <= i < j < |es| && es[i].Some? && es[j].Some? ==> es[i].value.row.id != es[j].value.row.id
  }

  ghost predicate NoneStored(rows: seq<MessageRow>, es: seq<Option<Extraction>>) {
    forall e :: e in es && e.Some? ==> !IsStored(rows, e.value.row.id)
  }

  /** Of distinct new messages, a failed insert leaves its own out for good. */
  lemma {:induction false} FailedPassLeavesOut(p: Persisted, es: seq<Option<Extraction>>, attempts: seq<Attempt>)
    returns (k: nat)
    requires |attempts| == |es| && DistinctRows(es) && NoneStored(p.tables.rows, es)
    requires PersistAll(p, es, attempts).counts.failed > p.counts.failed
    ensures k < |es| && es[k].Some? && !attempts[k].insertOk
    ensures !IsStored(PersistAll(p, es, attempts).tables.rows, es[k].value.row.id)
  {
    var n := |es| - 1;
    var front := es[..n];
    assert es == front + [es[n]];
    var before := PersistAll(p, front, attempts[..n]);
    if before.counts.failed > p.counts.failed {
      k := FailedPassLeavesOut(p, front, attempts[..n]);
      OneAddsOnlyItsId(before.tables, es[n], attempts[n], es[k].value.row.id);
    } else {
      k := n;
      OnlyTheirOwnRows(p, front, attempts[..n], es[n].value.row.id);
      OneAddsOnlyItsId(before.tables, es[n], attempts[n], es[n].value.row.id);
    }
  }

  /** The rows a pass offers to the table: those of storable messages whose insert goes through. */
  function Offered(es: seq<Option<Extraction>>, attempts: seq<Attempt>): seq<MessageRow>
    requires |attempts| == |es|
  {
    if es == [] then []
    else
      var n := |es| - 1;
      var before := Offered(es[..n], attempts[..n]);
      if es[n].Some? && attempts[n].insertOk then before + [es[n].value.row] else before
  }

  lemma {:induction false} InsertAllAppends(rows: seq<MessageRow>, more: seq<MessageRow>, row: MessageRow)
    ensures InsertAll(rows, more + [row]) == InsertIfNew(InsertAll(rows, more), row)
    decreases |more|
  {
    if more == [] {
      assert [] + [row] == [row];
    } else {
      assert (more + [row])[1..] == more[1..] + [row];
      InsertAllAppends(InsertIfNew(rows, more[0]), more[1..], row);
    }
  }

  lemma OneInserts(t: Tables, e: Extraction, a: Attempt)
    requires a.insertOk
    ensures TablesAfter(t, Some(e), a).rows == InsertIfNew(t.rows, e.row)
  {
  }

  /** What the worker sees of the sink: the offered rows, inserted if new. */
  lemma {:induction false} PersistInsertsOffered(p: Persisted, es: seq<Option<Extraction>>, attempts: seq<Attempt>)
    requires |attempts| == |es|
    ensures PersistAll(p, es, attempts).tables.rows == InsertAll(p.tables.rows, Offered(es, attempts))
  {
    if es == [] {
    } else {
      var n := |es| - 1;
      var front := PersistAll(p, es[..n], attempts[..n]).tables;
      var offered := Offered(es[..n], attempts[..n]);
      PersistInsertsOffered(p, es[..n], attempts[..n]);
      if es[n].Some? && attempts[n].insertOk {
        OneInserts(front, es[n].value, attempts[n]);
        InsertAllAppends(p.tables.rows, offered, es[n].value.row);
        assert Offered(es, attempts) == offered + [es[n].value.row];
      }
    }
  }

  /** A row stored as pending always has text for the drain worker, under any positive limit. */
  lemma StoredPendingHasText(chat: string, source: string, m: WebMessageInfo, limit: Option<nat>)
    requires Storable(m) && (limit.Some? ==> limit.value > 0)
    ensures var row := Extract(chat, source, m).value.row;
            row.pending ==> EmbedText.Prepare(row.kind, row.body, limit).Some?
  {
    var p := m.payload.value;
    if Embeddable(p.content) {
      EmbedText.PendingRowsHaveText(p.content, MediaLength(p.mediaRef), limit);
    }
  }
}
