/**
 What a pass of storing history messages writes and counts (src/bridge.rs,
 `persist_history_messages`), message by message: which are stored, which get a media reference,
 and what each number of the tally stands for.
 */
module PersistMedia {
  import opened Wrappers
  import opened History
  import opened Persist

  // ----- which messages are stored -----

  /** The message at `k` is storable and its insert goes through. */
  predicate Offers(es: seq<Option<Extraction>>, attempts: seq<Attempt>, k: nat) {
    k < |es| && k < |attempts| && es[k].Some? && attempts[k].insertOk
  }

  /** It is the first to offer its id, which no row had. */
  predicate IsNew(rows: seq<MessageRow>, es: seq<Option<Extraction>>, attempts: seq<Attempt>, k: nat) {
    && Offers(es, attempts, k) && !IsStored(rows, es[k].value.row.id)
    && forall j :: 0 <= j < k && Offers(es, attempts, j) ==> es[j].value.row.id != es[k].value.row.id
  }

  /** The state after the first `n` messages. */
  function Through(p: Persisted, es: seq<Option<Extraction>>, attempts: seq<Attempt>, n: nat): Persisted
    requires n <= |es| == |attempts|
  {
    PersistAll(p, es[..n], attempts[..n])
  }

  lemma ThroughNext(p: Persisted, es: seq<Option<Extraction>>, attempts: seq<Attempt>, n: nat)
    requires n < |es| == |attempts|
    ensures Through(p, es, attempts, n + 1) == Then(Through(p, es, attempts, n), es[n], attempts[n])
  {
    assert es[..n + 1][..n] == es[..n] && attempts[..n + 1][..n] == attempts[..n];
  }

  lemma {:induction false} StoredThrough(p: Persisted, es: seq<Option<Extraction>>, attempts: seq<Attempt>, n: nat,
                                         id: string)
    requires n <= |es| == |attempts|
    ensures IsStored(Through(p, es, attempts, n).tables.rows, id)
            <==> IsStored(p.tables.rows, id)
                 || exists j :: 0 <= j < n && Offers(es, attempts, j) && es[j].value.row.id == id
  {
    if n == 0 {
    } else {
      var before := Through(p, es, attempts, n - 1);
      ThroughNext(p, es, attempts, n - 1);
      StoredThrough(p, es, attempts, n - 1, id);
      OneMoreId(before.tables, es[n - 1], attempts[n - 1], id);
    }
  }

  lemma OneMoreId(t: Tables, e: Option<Extraction>, a: Attempt, id: string)
    ensures IsStored(TablesAfter(t, e, a).rows, id)
            <==> IsStored(t.rows, id) || (e.Some? && a.insertOk && e.value.row.id == id)
  {
    OneKeeps(t, e, a);
    if IsStored(t.rows, id) {
      StoredStays(t.rows, TablesAfter(t, e, a).rows, id);
    } else if e.Some? && a.insertOk && e.value.row.id == id {
      OneStores(t, e, a);
    }
  }

  /** A message's row is inserted exactly when it is new. */
  lemma InsertsExactly(p: Persisted, es: seq<Option<Extraction>>, attempts: seq<Attempt>, n: nat)
    requires n < |es| == |attempts|
    ensures Inserts(Through(p, es, attempts, n).tables, es[n], attempts[n]) <==> IsNew(p.tables.rows, es, attempts, n)
  {
    if es[n].Some? {
      StoredThrough(p, es, attempts, n, es[n].value.row.id);
    }
  }

  // ----- which get a media reference -----

  /** The message is new, has media, and the write of its reference goes through. */
  predicate GetsRef(rows: seq<MessageRow>, es: seq<Option<Extraction>>, attempts: seq<Attempt>, k: nat) {
    IsNew(rows, es, attempts, k) && es[k].value.mediaRef.Some? && attempts[k].mediaOk
  }

  /** The references after `n` messages: the old ones, and those of the messages that got one. */
  ghost predicate RefsAre(p: Persisted, es: seq<Option<Extraction>>, attempts: seq<Attempt>, n: nat,
                          refs: map<string, MediaRef>) {
    && KeepsRefs(p.tables.mediaRefs, refs)
    && (forall id :: id in refs ==>
          id in p.tables.mediaRefs
          || exists k :: 0 <= k < n && GetsRef(p.tables.rows, es, attempts, k) && es[k].value.row.id == id)
    && (forall k :: 0 <= k < n && GetsRef(p.tables.rows, es, attempts, k) ==>
          es[k].value.row.id in refs
          && (es[k].value.row.id !in p.tables.mediaRefs ==> refs[es[k].value.row.id] == es[k].value.mediaRef.value))
  }

  lemma NewOnce(rows: seq<MessageRow>, es: seq<Option<Extraction>>, attempts: seq<Attempt>, k: nat, n: nat)
    requires k < n && IsNew(rows, es, attempts, k) && IsNew(rows, es, attempts, n)
    ensures es[k].value.row.id != es[n].value.row.id
  {
  }

  lemma {:induction false} RefsThrough(p: Persisted, es: seq<Option<Extraction>>, attempts: seq<Attempt>, n: nat)
    requires n <= |es| == |attempts|
    ensures RefsAre(p, es, attempts, n, Through(p, es, attempts, n).tables.mediaRefs)
  {
    if n == 0 {
    } else {
      var m := n - 1;
      var before := Through(p, es, attempts, m).tables;
      RefsThrough(p, es, attempts, m);
      ThroughNext(p, es, attempts, m);
      InsertsExactly(p, es, attempts, m);
      var after := TablesAfter(before, es[m], attempts[m]).mediaRefs;
      if GetsRef(p.tables.rows, es, attempts, m) {
        var id := es[m].value.row.id;
        assert after == WithRef(before.mediaRefs, id, es[m].value.mediaRef.value);
        forall k | 0 <= k < m && GetsRef(p.tables.rows, es, attempts, k) ensures es[k].value.row.id != id {
          NewOnce(p.tables.rows, es, attempts, k, m);
        }
      } else {
        assert after == before.mediaRefs;
      }
    }
  }

  /**
   After a pass an id has a media reference exactly when it had one, or one of its messages was
   newly stored with media whose reference could be written; the reference is that message's own.
   */
  lemma RefsExactly(p: Persisted, es: seq<Option<Extraction>>, attempts: seq<Attempt>)
    requires |attempts| == |es|
    ensures RefsAre(p, es, attempts, |es|, PersistAll(p, es, attempts).tables.mediaRefs)
  {
    RefsThrough(p, es, attempts, |es|);
    assert es[..|es|] == es && attempts[..|es|] == attempts;
  }

  // ----- what the tally counts -----

  /** How many of the first `n` indices satisfy `f`. */
  function HowMany(n: nat, f: nat -> bool): nat {
    if n == 0 then 0 else HowMany(n - 1, f) + if f(n - 1) then 1 else 0
  }

  /** What each count of a pass stands for. */
  ghost predicate TallyIs(p: Persisted, q: Persisted, es: seq<Option<Extraction>>, attempts: seq<Attempt>, n: nat) {
    var rows := p.tables.rows;
    && q.counts.stored == p.counts.stored + HowMany(n, (k: nat) => IsNew(rows, es, attempts, k))
    && q.counts.duplicates
       == p.counts.duplicates + HowMany(n, (k: nat) => Offers(es, attempts, k) && !IsNew(rows, es, attempts, k))
    && q.counts.unstorable == p.counts.unstorable + HowMany(n, (k: nat) => k < |es| && es[k].None?)
    && q.counts.failed == p.counts.failed + HowMany(n, (k: nat) => k < |es| && es[k].Some? && !Offers(es, attempts, k))
    && q.counts.mediaRefs == p.counts.mediaRefs + HowMany(n, (k: nat) => GetsRef(rows, es, attempts, k))
    && q.counts.mediaRefsFailed
       == p.counts.mediaRefsFailed
          + HowMany(n, (k: nat) => IsNew(rows, es, attempts, k) && es[k].value.mediaRef.Some?
                                   && !GetsRef(rows, es, attempts, k))
  }

  lemma {:induction false} TallyThrough(p: Persisted, es: seq<Option<Extraction>>, attempts: seq<Attempt>, n: nat)
    requires n <= |es| == |attempts|
    ensures TallyIs(p, Through(p, es, attempts, n), es, attempts, n)
  {
    if n == 0 {
    } else {
      TallyThrough(p, es, attempts, n - 1);
      ThroughNext(p, es, attempts, n - 1);
      InsertsExactly(p, es, attempts, n - 1);
    }
  }

  /**
   The tally tells the messages apart: stored are the new ones, duplicates those offered for an id
   that was there, failed those whose insert did not go through, unstorable the rest; media
   references are counted as written or failed for new messages with media, and for no others.
   */
  lemma TallyExactly(p: Persisted, es: seq<Option<Extraction>>, attempts: seq<Attempt>)
    requires |attempts| == |es|
    ensures TallyIs(p, PersistAll(p, es, attempts), es, attempts, |es|)
  {
    TallyThrough(p, es, attempts, |es|);
    assert es[..|es|] == es && attempts[..|es|] == attempts;
  }

  lemma {:induction false} RefsGrowThrough(p: Persisted, es: seq<Option<Extraction>>, attempts: seq<Attempt>, n: nat)
    requires n <= |es| == |attempts|
    requires forall k :: 0 <= k < n && es[k].Some? ==> es[k].value.row.id !in p.tables.mediaRefs
    ensures var q := Through(p, es, attempts, n);
            |q.tables.mediaRefs| - |p.tables.mediaRefs| == q.counts.mediaRefs - p.counts.mediaRefs
  {
    if n == 0 {
    } else {
      var m := n - 1;
      var before := Through(p, es, attempts, m);
      RefsGrowThrough(p, es, attempts, m);
      RefsThrough(p, es, attempts, m);
      ThroughNext(p, es, attempts, m);
      InsertsExactly(p, es, attempts, m);
      if GetsRef(p.tables.rows, es, attempts, m) {
        var id, refs := es[m].value.row.id, before.tables.mediaRefs;
        forall k | 0 <= k < m && GetsRef(p.tables.rows, es, attempts, k) ensures es[k].value.row.id != id {
          NewOnce(p.tables.rows, es, attempts, k, m);
        }
        assert id !in refs;
        assert refs[id := es[m].value.mediaRef.value].Keys == refs.Keys + {id};
      }
    }
  }

  /** When none of the messages' ids had a reference, the table grows by exactly the counted ones. */
  lemma RefsGrowByCount(p: Persisted, es: seq<Option<Extraction>>, attempts: seq<Attempt>)
    requires |attempts| == |es|
    requires forall e :: e in es && e.Some? ==> e.value.row.id !in p.tables.mediaRefs
    ensures var q := PersistAll(p, es, attempts);
            |q.tables.mediaRefs| - |p.tables.mediaRefs| == q.counts.mediaRefs - p.counts.mediaRefs
  {
    RefsGrowThrough(p, es, attempts, |es|);
    assert es[..|es|] == es && attempts[..|es|] == attempts;
  }
}
