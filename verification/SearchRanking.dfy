/**
 The order in which search shows its results (src/bridge.rs, `WhatsAppBridge::search`): by each
 row's own similarity, rows without one behind, and recall order where nothing else decides.
 */
module SearchRanking {
  import opened Wrappers
  import opened Search

  // ----- a row's own score -----

  /** The first scoped vector of a row. */
  predicate FirstOf(candidates: seq<Candidate>, id: string, k: nat) {
    k < |candidates| && candidates[k].row.id == id && forall j :: 0 <= j < k ==> candidates[j].row.id != id
  }

  /** The similarity of a row's first scoped vector; none without one, or without a comparable one. */
  ghost predicate OwnScore(candidates: seq<Candidate>, cosine: Vec -> Option<real>, id: string, score: Option<real>) {
    && (forall k: nat :: FirstOf(candidates, id, k) ==> score == cosine(candidates[k].vec))
    && ((forall k :: 0 <= k < |candidates| ==> candidates[k].row.id != id) ==> score == None)
  }

  /** The search by id finds exactly that. */
  lemma {:induction false} FindScoreIsOwn(id: string, candidates: seq<Candidate>, cosine: Vec -> Option<real>)
    ensures OwnScore(candidates, cosine, id, FindScore(id, candidates, cosine))
  {
    if candidates == [] {
    } else {
      var rest := candidates[1..];
      FindScoreIsOwn(id, rest, cosine);
      if candidates[0].row.id == id {
        forall k: nat | FirstOf(candidates, id, k) ensures k == 0 {
        }
      } else {
        forall k: nat | FirstOf(candidates, id, k) ensures k > 0 && FirstOf(rest, id, k - 1) {
          assert forall j :: 0 <= j < k - 1 ==> rest[j] == candidates[j + 1];
        }
        if forall k :: 0 <= k < |candidates| ==> candidates[k].row.id != id {
          assert forall k :: 0 <= k < |rest| ==> rest[k] == candidates[k + 1];
        }
      }
    }
  }

  // ----- best first, the unscored last, ties in recall order -----

  /** A better or equal score comes first, and a row without a score behind every scored one. */
  ghost predicate RankedBy(rows: seq<InboundRow>, score: string -> Option<real>) {
    forall i, j :: 0 <= i < j < |rows| && score(rows[j].id).Some? ==>
      score(rows[i].id).Some? && score(rows[i].id).value >= score(rows[j].id).value
  }

  /** The two rows come in this order in the list. */
  ghost predicate InOrder(rows: seq<InboundRow>, first: InboundRow, second: InboundRow) {
    exists a, b :: 0 <= a < b < |rows| && rows[a] == first && rows[b] == second
  }

  /** Lexical rows of the same score, or of none, come as they were recalled. */
  ghost predicate TiesAsRecalled(rows: seq<InboundRow>, lexical: seq<InboundRow>, score: string -> Option<real>) {
    forall i, j :: 0 <= i < j < |rows| && IsLexical(rows[i].id, lexical) && IsLexical(rows[j].id, lexical)
                   && score(rows[i].id) == score(rows[j].id) ==>
      InOrder(lexical, rows[i], rows[j])
  }

  /** Sorted hits with their own scores, and unscored rows behind them, are ranked. */
  lemma SortedIsRanked(hits: seq<Hit>, rest: seq<InboundRow>, score: string -> Option<real>)
    requires forall h :: h in hits ==> score(h.row.id) == Some(h.score)
    requires forall r :: r in rest ==> score(r.id).None?
    ensures RankedBy(Rows(SortDesc(hits)) + rest, score)
  {
    var sorted := SortDesc(hits);
    var rows := Rows(sorted) + rest;
    SortIsStable(hits, 0.0);
    forall j | |sorted| <= j < |rows| ensures score(rows[j].id).None? {
      assert rows[j] == rest[j - |sorted|] && rest[j - |sorted|] in rest;
    }
    forall i, j | 0 <= i < j < |sorted|
      ensures score(rows[i].id).Some? && score(rows[j].id).Some?
      ensures score(rows[i].id).value >= score(rows[j].id).value
    {
      assert sorted[i] in hits && sorted[j] in hits && rows[i] == sorted[i].row && rows[j] == sorted[j].row;
    }
    forall j | 0 <= j < |sorted| ensures score(rows[j].id).Some? {
      assert sorted[j] in hits && rows[j] == sorted[j].row;
    }
  }

  lemma {:induction false} ScoredAre(rows: seq<InboundRow>, scorer: Scorer)
    ensures forall h :: h in ScoredOf(rows, scorer) ==> h.row in rows && scorer(h.row.id) == Some(h.score)
    ensures forall r :: r in UnscoredOf(rows, scorer) ==> r in rows && scorer(r.id).None?
  {
    if rows == [] {
    } else {
      var n := |rows| - 1;
      ScoredAre(rows[..n], scorer);
      assert rows == rows[..n] + [rows[n]];
    }
  }

  /** Hits of one score keep their places relative to each other in the part that has it. */
  lemma {:induction false} PlacesInScore(hits: seq<Hit>, i: nat, j: nat) returns (a: nat, b: nat)
    requires i < j < |hits| && hits[i].score == hits[j].score
    ensures var part := OfScore(hits, hits[i].score);
            a < b < |part| && part[a] == hits[i] && part[b] == hits[j]
  {
    var score, rest := hits[i].score, hits[1..];
    if i == 0 {
      a := 0;
      b := PlaceInScore(rest, j - 1);
      b := b + 1;
    } else {
      a, b := PlacesInScore(rest, i - 1, j - 1);
      if hits[0].score == score {
        a, b := a + 1, b + 1;
      }
    }
  }

  lemma {:induction false} PlaceInScore(hits: seq<Hit>, j: nat) returns (b: nat)
    requires j < |hits|
    ensures var part := OfScore(hits, hits[j].score);
            b < |part| && part[b] == hits[j]
  {
    if j == 0 {
      b := 0;
    } else {
      b := PlaceInScore(hits[1..], j - 1);
      if hits[0].score == hits[j].score {
        b := b + 1;
      }
    }
  }

  /** And the other way round. */
  lemma {:induction false} PlacesOfScore(hits: seq<Hit>, score: real, a: nat, b: nat) returns (i: nat, j: nat)
    requires a < b < |OfScore(hits, score)|
    ensures i < j < |hits| && hits[i] == OfScore(hits, score)[a] && hits[j] == OfScore(hits, score)[b]
  {
    var rest := hits[1..];
    if hits[0].score != score {
      i, j := PlacesOfScore(rest, score, a, b);
      i, j := i + 1, j + 1;
    } else if a == 0 {
      i := 0;
      j := PlaceOfScore(rest, score, b - 1);
      j := j + 1;
    } else {
      i, j := PlacesOfScore(rest, score, a - 1, b - 1);
      i, j := i + 1, j + 1;
    }
  }

  lemma {:induction false} PlaceOfScore(hits: seq<Hit>, score: real, b: nat) returns (j: nat)
    requires b < |OfScore(hits, score)|
    ensures j < |hits| && hits[j] == OfScore(hits, score)[b]
  {
    if hits[0].score != score {
      j := PlaceOfScore(hits[1..], score, b);
      j := j + 1;
    } else if b == 0 {
      j := 0;
    } else {
      j := PlaceOfScore(hits[1..], score, b - 1);
      j := j + 1;
    }
  }

  /** Sorting keeps the order of two hits of the same score. */
  lemma SortKeepsTies(hits: seq<Hit>, i: nat, j: nat) returns (a: nat, b: nat)
    requires i < j < |SortDesc(hits)| && SortDesc(hits)[i].score == SortDesc(hits)[j].score
    ensures a < b < |hits| && hits[a] == SortDesc(hits)[i] && hits[b] == SortDesc(hits)[j]
  {
    var score := SortDesc(hits)[i].score;
    SortIsStable(hits, score);
    a, b := PlacesInScore(SortDesc(hits), i, j);
    a, b := PlacesOfScore(hits, score, a, b);
  }

  lemma {:induction false} ScoredInOrder(rows: seq<InboundRow>, scorer: Scorer, a: nat, b: nat)
    requires a < b < |ScoredOf(rows, scorer)|
    ensures InOrder(rows, ScoredOf(rows, scorer)[a].row, ScoredOf(rows, scorer)[b].row)
  {
    var n := |rows| - 1;
    var front := rows[..n];
    if b < |ScoredOf(front, scorer)| {
      ScoredInOrder(front, scorer, a, b);
      OrderInFront(rows, n, ScoredOf(rows, scorer)[a].row, ScoredOf(rows, scorer)[b].row);
    } else {
      ScoredAre(front, scorer);
      var h := ScoredOf(front, scorer)[a];
      assert h in ScoredOf(front, scorer);
      var k :| 0 <= k < n && front[k] == h.row;
      assert rows[k] == h.row && rows[n] == ScoredOf(rows, scorer)[b].row;
    }
  }

  lemma {:induction false} UnscoredInOrder(rows: seq<InboundRow>, scorer: Scorer, a: nat, b: nat)
    requires a < b < |UnscoredOf(rows, scorer)|
    ensures InOrder(rows, UnscoredOf(rows, scorer)[a], UnscoredOf(rows, scorer)[b])
  {
    var n := |rows| - 1;
    var front := rows[..n];
    if b < |UnscoredOf(front, scorer)| {
      UnscoredInOrder(front, scorer, a, b);
      OrderInFront(rows, n, UnscoredOf(rows, scorer)[a], UnscoredOf(rows, scorer)[b]);
    } else {
      ScoredAre(front, scorer);
      var r := UnscoredOf(front, scorer)[a];
      assert r in UnscoredOf(front, scorer);
      var k :| 0 <= k < n && front[k] == r;
      assert rows[k] == r && rows[n] == UnscoredOf(rows, scorer)[b];
    }
  }

  lemma OrderInFront(rows: seq<InboundRow>, n: nat, first: InboundRow, second: InboundRow)
    requires n <= |rows| && InOrder(rows[..n], first, second)
    ensures InOrder(rows, first, second)
  {
    var a, b :| 0 <= a < b < n && rows[..n][a] == first && rows[..n][b] == second;
    assert rows[a] == first && rows[b] == second;
  }

  /** The scores the two parts of a merge go by. */
  ghost predicate MergeScores(lexical: seq<InboundRow>, scorer: Scorer, extra: seq<Hit>,
                              score: string -> Option<real>) {
    && (forall r :: r in lexical ==> score(r.id) == scorer(r.id))
    && (forall h :: h in extra ==> !IsLexical(h.row.id, lexical) && score(h.row.id) == Some(h.score))
  }

  /** Two lexical hits of the same score come out as they were recalled. */
  lemma ScoredTie(lexical: seq<InboundRow>, scorer: Scorer, extra: seq<Hit>, i: nat, j: nat)
    requires forall h :: h in extra ==> !IsLexical(h.row.id, lexical)
    requires var sorted := SortDesc(ScoredOf(lexical, scorer) + extra);
             i < j < |sorted| && sorted[i].score == sorted[j].score
             && IsLexical(sorted[i].row.id, lexical) && IsLexical(sorted[j].row.id, lexical)
    ensures var sorted := SortDesc(ScoredOf(lexical, scorer) + extra);
            InOrder(lexical, sorted[i].row, sorted[j].row)
  {
    var scored := ScoredOf(lexical, scorer);
    var a, b := SortKeepsTies(scored + extra, i, j);
    forall k | |scored| <= k < |scored + extra| ensures !IsLexical((scored + extra)[k].row.id, lexical) {
      assert (scored + extra)[k] == extra[k - |scored|] && extra[k - |scored|] in extra;
    }
    ScoredInOrder(lexical, scorer, a, b);
  }

  /** What is known of each row of a merge's sorted part and of the part behind it. */
  lemma MergeParts(lexical: seq<InboundRow>, scorer: Scorer, extra: seq<Hit>, score: string -> Option<real>)
    requires MergeScores(lexical, scorer, extra, score)
    ensures forall h :: h in SortDesc(ScoredOf(lexical, scorer) + extra) ==> score(h.row.id) == Some(h.score)
    ensures forall r :: r in UnscoredOf(lexical, scorer) ==> score(r.id).None?
  {
    var scored := ScoredOf(lexical, scorer);
    ScoredAre(lexical, scorer);
    SortIsStable(scored + extra, 0.0);
  }

  /** Whatever other hits are merged in behind the lexical ones, lexical ties stay as recalled. */
  lemma MergedTies(lexical: seq<InboundRow>, scorer: Scorer, extra: seq<Hit>, score: string -> Option<real>)
    requires MergeScores(lexical, scorer, extra, score)
    ensures TiesAsRecalled(Rows(SortDesc(ScoredOf(lexical, scorer) + extra)) + UnscoredOf(lexical, scorer),
                           lexical, score)
  {
    var sorted, rest := SortDesc(ScoredOf(lexical, scorer) + extra), UnscoredOf(lexical, scorer);
    var rows, n := Rows(sorted) + rest, |sorted|;
    MergeParts(lexical, scorer, extra, score);
    forall i | 0 <= i < n ensures rows[i] == sorted[i].row && score(rows[i].id) == Some(sorted[i].score) {
      assert sorted[i] in sorted;
    }
    forall i | n <= i < |rows| ensures rows[i] == rest[i - n] && score(rows[i].id).None? {
      assert rest[i - n] in rest;
    }
    forall i, j | 0 <= i < j < |rows| && IsLexical(rows[i].id, lexical) && IsLexical(rows[j].id, lexical)
                  && score(rows[i].id) == score(rows[j].id)
      ensures InOrder(lexical, rows[i], rows[j])
    {
      if j < n {
        ScoredTie(lexical, scorer, extra, i, j);
      } else {
        UnscoredInOrder(lexical, scorer, i - n, j - n);
      }
    }
  }

  // ----- the two paths -----

  /** Every row is scored by its own first scoped vector. */
  ghost predicate ScoresOwn(score: string -> Option<real>, candidates: seq<Candidate>, cosine: Vec -> Option<real>) {
    forall id :: OwnScore(candidates, cosine, id, score(id))
  }

  /** There is only one such scoring, and it is the one the search by id gives. */
  lemma OwnScoreUnique(score: string -> Option<real>, candidates: seq<Candidate>, cosine: Vec -> Option<real>,
                       id: string)
    requires ScoresOwn(score, candidates, cosine)
    ensures score(id) == FindScore(id, candidates, cosine)
  {
    assert OwnScore(candidates, cosine, id, score(id));
    FindScoreIsOwn(id, candidates, cosine);
    FirstExists(candidates, id);
  }

  lemma {:induction false} FirstExists(candidates: seq<Candidate>, id: string)
    ensures (exists k: nat :: FirstOf(candidates, id, k))
            || forall k :: 0 <= k < |candidates| ==> candidates[k].row.id != id
  {
    if candidates == [] {
    } else {
      var n := |candidates| - 1;
      FirstExists(candidates[..n], id);
      if k: nat :| FirstOf(candidates[..n], id, k) {
        assert FirstOf(candidates, id, k);
      } else if candidates[n].row.id == id {
        forall j | 0 <= j < n ensures candidates[j].row.id != id {
          assert candidates[..n][j] == candidates[j];
        }
        assert FirstOf(candidates, id, n);
      }
    }
  }

  /**
   The hybrid result is ranked by each row's own similarity: a better row comes first, lexical or
   not, a lexical row without a comparable vector comes behind every scored row, and lexical rows
   that tie come as they were recalled.
   */
  lemma HybridRanks(lexical: seq<InboundRow>, candidates: seq<Candidate>, cosine: Vec -> Option<real>, minScore: real,
                    score: string -> Option<real>)
    requires UniqueCandidates(candidates) && ScoresOwn(score, candidates, cosine)
    ensures RankedBy(Hybrid(lexical, candidates, cosine, minScore), score)
    ensures TiesAsRecalled(Hybrid(lexical, candidates, cosine, minScore), lexical, score)
  {
    var find, extra := Finder(candidates, cosine), VectorOnly(candidates, lexical, cosine, minScore);
    ScoredAre(lexical, find);
    VectorOnlyAre(candidates, lexical, cosine, minScore);
    forall id ensures score(id) == find(id) {
      OwnScoreUnique(score, candidates, cosine, id);
    }
    forall h | h in extra ensures !IsLexical(h.row.id, lexical) && score(h.row.id) == Some(h.score) {
      var c :| c in candidates && Admitted(c, lexical, cosine, minScore) && h == Hit(c.row, cosine(c.vec).value);
      var k :| 0 <= k < |candidates| && candidates[k] == c;
      assert FirstOf(candidates, c.row.id, k);
      assert OwnScore(candidates, cosine, c.row.id, score(c.row.id));
    }
    SortedIsRanked(ScoredOf(lexical, find) + extra, UnscoredOf(lexical, find), score);
    MergedTies(lexical, find, extra, score);
  }

  /** A row is scored by its vector among those fetched for the lexical rows. */
  ghost predicate ScoresByVector(score: string -> Option<real>, vectors: map<string, Vec>,
                                 cosine: Vec -> Option<real>) {
    && (forall id :: id in vectors ==> score(id) == cosine(vectors[id]))
    && (forall id :: id !in vectors ==> score(id).None?)
  }

  /** So is the rerank-only result. */
  lemma RerankRanks(lexical: seq<InboundRow>, vectors: map<string, Vec>, cosine: Vec -> Option<real>,
                    score: string -> Option<real>)
    requires ScoresByVector(score, vectors, cosine)
    ensures RankedBy(Reranked(lexical, Looker(vectors, cosine)), score)
    ensures TiesAsRecalled(Reranked(lexical, Looker(vectors, cosine)), lexical, score)
    ensures multiset(Reranked(lexical, Looker(vectors, cosine))) == multiset(lexical)
  {
    var look := Looker(vectors, cosine);
    var scored, rest := ScoredOf(lexical, look), UnscoredOf(lexical, look);
    ScoredAre(lexical, look);
    assert scored + [] == scored;
    SortedIsRanked(scored, rest, score);
    MergedTies(lexical, look, [], score);
    SortKeepsAll(scored);
    LexicalSplit(lexical, look);
    assert multiset(Rows(SortDesc(scored)) + rest) == multiset(Rows(SortDesc(scored))) + multiset(rest);
  }
}
