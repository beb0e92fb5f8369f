/**
 What the drain worker can never do, over any run: rows leave `pending` once and for a reason,
 a vector belongs to its own row's text, failures touch nothing else, and the batch size stays
 within its bounds.
 */
module EmbedDrainSafety {
  import opened Wrappers
  import opened EmbedDrain

  ghost predicate UniqueIds(rows: seq<Row>) {
    forall i, j :: 0 <= i < j < |rows| ==> rows[i].id != rows[j].id
  }

  /** The embedder answers each text it answers at all with that text's vector. */
  ghost predicate HonestEmbedder(p: Pass, texts: seq<string>, embed: string -> Vec) {
    p.answer.Vectors? ==>
      forall k :: 0 <= k < |p.answer.vecs| && k < |texts| ==> p.answer.vecs[k] == embed(texts[k])
  }

  /** A row stays as it is, or leaves `pending`: failed without a text, or embedded by its own. */
  ghost predicate RowAdvances(r: Row, r': Row, cfg: Config, embed: string -> Vec) {
    r' == r ||
    (IsPending(r) &&
     var text := TextOf(r, cfg);
     if text.None? then r' == r.(status := Failed) else r' == r.(vector := Some(embed(text.value))))
  }

  ghost predicate Advances(rows: seq<Row>, rows': seq<Row>, cfg: Config, embed: string -> Vec) {
    |rows'| == |rows| && forall i :: 0 <= i < |rows| ==> RowAdvances(rows[i], rows'[i], cfg, embed)
  }

  lemma {:induction false} PendingRowsAre(rows: seq<Row>)
    ensures forall r :: r in PendingRows(rows) <==> r in rows && IsPending(r)
  {
    if rows == [] {
    } else {
      PendingRowsAre(rows[1..]);
      assert forall r :: r in rows <==> r == rows[0] || r in rows[1..];
    }
  }

  lemma {:induction false} PendingIdsUnique(rows: seq<Row>)
    requires UniqueIds(rows)
    ensures UniqueIds(PendingRows(rows))
  {
    if rows == [] {
    } else {
      PendingIdsUnique(rows[1..]);
      PendingRowsAre(rows[1..]);
      var rest := PendingRows(rows[1..]);
      if IsPending(rows[0]) {
        forall j | 0 <= j < |rest| ensures rest[j].id != rows[0].id {
          assert rest[j] in rows[1..];
        }
      }
    }
  }

  /** A fetched batch holds pending rows of the table, each once. */
  ghost predicate BatchOf(batch: seq<Row>, rows: seq<Row>) {
    UniqueIds(batch) && forall r :: r in batch ==> r in rows && IsPending(r)
  }

  lemma FetchedBatch(rows: seq<Row>, n: nat)
    requires UniqueIds(rows)
    ensures BatchOf(FetchPending(rows, n), rows)
  {
    PendingRowsAre(rows);
    PendingIdsUnique(rows);
    assert forall r :: r in FetchPending(rows, n) ==> r in PendingRows(rows);
  }

  lemma {:induction false} WithTextAre(batch: seq<Row>, cfg: Config)
    requires UniqueIds(batch)
    ensures forall r :: r in WithText(batch, cfg) <==> r in batch && TextOf(r, cfg).Some?
    ensures UniqueIds(WithText(batch, cfg))
  {
    if batch == [] {
    } else {
      var front, last := batch[..|batch| - 1], batch[|batch| - 1];
      WithTextAre(front, cfg);
      assert batch == front + [last];
      var before := WithText(front, cfg);
      forall i | 0 <= i < |before| ensures before[i].id != last.id {
        assert before[i] in front;
      }
    }
  }

  lemma {:induction false} MarkedRows(rows: seq<Row>, batch: seq<Row>, cfg: Config, unmarked: set<string>)
    ensures var marked := MarkEmpty(rows, batch, cfg, unmarked);
            && |marked| == |rows|
            && forall i :: 0 <= i < |rows| ==>
                 marked[i] == if exists r :: r in batch && TextOf(r, cfg).None? && r.id !in unmarked
                                              && r.id == rows[i].id
                              then rows[i].(status := Failed) else rows[i]
  {
    if batch == [] {
    } else {
      var front, last := batch[..|batch| - 1], batch[|batch| - 1];
      MarkedRows(rows, front, cfg, unmarked);
      assert batch == front + [last];
    }
  }

  lemma {:induction false} WrittenRows(rows: seq<Row>, ids: seq<string>, vecs: seq<Vec>)
    requires forall i, j :: 0 <= i < j < |ids| ==> ids[i] != ids[j]
    ensures var written := WriteVectors(rows, ids, vecs);
            && |written| == |rows|
            && (forall i, k :: 0 <= i < |rows| && 0 <= k < |ids| && k < |vecs| && ids[k] == rows[i].id ==>
                  written[i] == rows[i].(vector := Some(vecs[k])))
            && (forall i :: 0 <= i < |rows| && rows[i].id !in ids ==> written[i] == rows[i])
            && (forall i :: 0 <= i < |rows| && (forall k :: 0 <= k < |ids| && k < |vecs| ==> ids[k] != rows[i].id) ==>
                  written[i] == rows[i])
    decreases |ids|
  {
    if ids == [] || vecs == [] {
    } else {
      var next := SetVector(rows, ids[0], vecs[0]);
      WrittenRows(next, ids[1..], vecs[1..]);
      var written := WriteVectors(rows, ids, vecs);
      forall i, k | 0 <= i < |rows| && 0 <= k < |ids| && k < |vecs| && ids[k] == rows[i].id
        ensures written[i] == rows[i].(vector := Some(vecs[k]))
      {
        if k > 0 {
          assert ids[1..][k - 1] == ids[k] && vecs[1..][k - 1] == vecs[k];
        }
      }
      forall i | 0 <= i < |rows| && (forall k :: 0 <= k < |ids| && k < |vecs| ==> ids[k] != rows[i].id)
        ensures written[i] == rows[i]
      {
        assert ids[0] != rows[i].id;
        forall k | 0 <= k < |ids[1..]| && k < |vecs[1..]| ensures ids[1..][k] != next[i].id {
          assert ids[1..][k] == ids[k + 1];
        }
      }
    }
  }

  lemma SameRow(rows: seq<Row>, r: Row, i: nat)
    requires UniqueIds(rows) && r in rows && i < |rows| && r.id == rows[i].id
    ensures r == rows[i]
  {
    var j :| 0 <= j < |rows| && rows[j] == r;
  }

  /** Marking fails only pending rows without a text. */
  lemma MarkAdvances(rows: seq<Row>, batch: seq<Row>, cfg: Config, unmarked: set<string>, embed: string -> Vec)
    requires UniqueIds(rows) && BatchOf(batch, rows)
    ensures var marked := MarkEmpty(rows, batch, cfg, unmarked);
            && Advances(rows, marked, cfg, embed)
            && forall i :: 0 <= i < |rows| && TextOf(rows[i], cfg).Some? ==> marked[i] == rows[i]
  {
    MarkedRows(rows, batch, cfg, unmarked);
    var marked := MarkEmpty(rows, batch, cfg, unmarked);
    forall i | 0 <= i < |rows|
      ensures RowAdvances(rows[i], marked[i], cfg, embed)
      ensures TextOf(rows[i], cfg).Some? ==> marked[i] == rows[i]
    {
      if r :| r in batch && TextOf(r, cfg).None? && r.id !in unmarked && r.id == rows[i].id {
        SameRow(rows, r, i);
      }
    }
  }

  /** Each written vector goes to the row whose text was embedded at the same position. */
  lemma WriteAdvances(rows: seq<Row>, batch: seq<Row>, cfg: Config, p: Pass, embed: string -> Vec)
    requires UniqueIds(rows) && BatchOf(batch, rows) && p.answer.Vectors?
    requires HonestEmbedder(p, Texts(WithText(batch, cfg), cfg), embed)
    ensures var ready := WithText(batch, cfg);
            Advances(rows, WriteVectors(MarkEmpty(rows, batch, cfg, p.unmarked), Ids(ready), p.answer.vecs), cfg, embed)
  {
    var ready, vecs := WithText(batch, cfg), p.answer.vecs;
    var ids, texts := Ids(ready), Texts(ready, cfg);
    WithTextAre(batch, cfg);
    MarkAdvances(rows, batch, cfg, p.unmarked, embed);
    var marked := MarkEmpty(rows, batch, cfg, p.unmarked);
    forall i, j | 0 <= i < j < |ids| ensures ids[i] != ids[j] {
      assert ready[i].id != ready[j].id;
    }
    WrittenRows(marked, ids, vecs);
    var written := WriteVectors(marked, ids, vecs);
    forall i | 0 <= i < |rows|
      ensures RowAdvances(rows[i], written[i], cfg, embed)
    {
      assert RowAdvances(rows[i], marked[i], cfg, embed);
      if k :| 0 <= k < |ids| && k < |vecs| && ids[k] == rows[i].id {
        assert ready[k] in ready;
        SameRow(rows, ready[k], i);
        assert vecs[k] == embed(texts[k]);
        assert written[i] == marked[i].(vector := Some(vecs[k]));
      } else {
        assert written[i] == marked[i];
      }
    }
  }

  /** The texts a pass sends to the embedder, were it to get that far. */
  function PassTexts(s: World, cfg: Config): seq<string> {
    Texts(WithText(FetchPending(s.rows, Woken(s.worker).batch), cfg), cfg)
  }

  predicate Delivers(p: Pass) {
    p.health.Healthy? && p.fetchOk && p.answer.Vectors? && p.writeOk
  }

  /** One pass advances rows, and without a delivered batch changes no row that has a text. */
  lemma PassAdvances(s: World, cfg: Config, p: Pass, embed: string -> Vec)
    requires UniqueIds(s.rows) && HonestEmbedder(p, PassTexts(s, cfg), embed)
    ensures var s' := RunPass(s, cfg, p);
            && Advances(s.rows, s'.rows, cfg, embed)
            && (!Delivers(p) ==>
                  forall i :: 0 <= i < |s.rows| && TextOf(s.rows[i], cfg).Some? ==> s'.rows[i] == s.rows[i])
  {
    var batch := FetchPending(s.rows, Woken(s.worker).batch);
    FetchedBatch(s.rows, Woken(s.worker).batch);
    MarkAdvances(s.rows, batch, cfg, p.unmarked, embed);
    if p.answer.Vectors? {
      WriteAdvances(s.rows, batch, cfg, p, embed);
    }
  }

  ghost predicate HonestPasses(s: World, cfg: Config, passes: seq<Pass>, embed: string -> Vec)
    decreases |passes|
  {
    passes == [] ||
    (HonestEmbedder(passes[0], PassTexts(s, cfg), embed) &&
     HonestPasses(RunPass(s, cfg, passes[0]), cfg, passes[1..], embed))
  }

  lemma AdvancesKeepsIds(rows: seq<Row>, rows': seq<Row>, cfg: Config, embed: string -> Vec)
    requires UniqueIds(rows) && Advances(rows, rows', cfg, embed)
    ensures UniqueIds(rows')
  {
    forall i, j | 0 <= i < j < |rows'| ensures rows'[i].id != rows'[j].id {
      assert RowAdvances(rows[i], rows'[i], cfg, embed) && RowAdvances(rows[j], rows'[j], cfg, embed);
    }
  }

  lemma AdvancesTransitive(a: seq<Row>, b: seq<Row>, c: seq<Row>, cfg: Config, embed: string -> Vec)
    requires Advances(a, b, cfg, embed) && Advances(b, c, cfg, embed)
    ensures Advances(a, c, cfg, embed)
  {
    forall i | 0 <= i < |a| ensures RowAdvances(a[i], c[i], cfg, embed) {
      assert RowAdvances(a[i], b[i], cfg, embed) && RowAdvances(b[i], c[i], cfg, embed);
    }
  }

  /**
   Over any run a row either stays as it was, or it was pending and is now failed for want of a
   text, or holds exactly the vector of its own text.
   */
  lemma {:induction false} RunAdvances(s: World, cfg: Config, passes: seq<Pass>, embed: string -> Vec)
    requires UniqueIds(s.rows) && HonestPasses(s, cfg, passes, embed)
    ensures Advances(s.rows, RunPasses(s, cfg, passes).rows, cfg, embed)
    decreases |passes|
  {
    if passes == [] {
    } else {
      var next := RunPass(s, cfg, passes[0]);
      PassAdvances(s, cfg, passes[0], embed);
      AdvancesKeepsIds(s.rows, next.rows, cfg, embed);
      RunAdvances(next, cfg, passes[1..], embed);
      AdvancesTransitive(s.rows, next.rows, RunPasses(next, cfg, passes[1..]).rows, cfg, embed);
    }
  }

  // ----- the batch size -----

  /** The largest batch the settings allow. */
  function Ceiling(cfg: Config): nat {
    if cfg.maxBatch.Some? && cfg.maxBatch.value < cfg.configured then cfg.maxBatch.value else cfg.configured
  }

  predicate InBounds(w: Worker, cfg: Config) {
    1 <= w.batch <= Ceiling(cfg)
  }

  lemma PassKeepsBounds(s: World, cfg: Config, p: Pass)
    requires InBounds(s.worker, cfg)
    ensures InBounds(RunPass(s, cfg, p).worker, cfg)
  {
  }

  /** The batch size stays between 1 and the smaller of the two limits, over any run. */
  lemma {:induction false} RunKeepsBounds(s: World, cfg: Config, passes: seq<Pass>)
    requires InBounds(s.worker, cfg)
    ensures InBounds(RunPasses(s, cfg, passes).worker, cfg)
    decreases |passes|
  {
    if passes == [] {
    } else {
      PassKeepsBounds(s, cfg, passes[0]);
      RunKeepsBounds(RunPass(s, cfg, passes[0]), cfg, passes[1..]);
    }
  }

  lemma FreshInBounds(cfg: Config, rows: seq<Row>, passes: seq<Pass>)
    requires cfg.configured >= 1 && (cfg.maxBatch.Some? ==> cfg.maxBatch.value >= 1)
    ensures InBounds(RunPasses(World(Fresh(cfg), rows), cfg, passes).worker, cfg)
  {
    RunKeepsBounds(World(Fresh(cfg), rows), cfg, passes);
  }
}
