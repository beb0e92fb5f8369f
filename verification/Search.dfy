/**
 Merging lexical and semantic search results (src/bridge.rs, `WhatsAppBridge::search`): the
 rerank-only path of a large history, and the hybrid path that adds vector-only hits. The
 query is fixed; `cosine` is its similarity to a stored vector, `None` on a dimension mismatch.
 */
module Search {
  import opened Wrappers

  type Vec = seq<real>

  datatype InboundRow = InboundRow(id: string, body: string)

  /** A scoped vector with the row it belongs to. */
  datatype Candidate = Candidate(row: InboundRow, vec: Vec)

  datatype Hit = Hit(row: InboundRow, score: real)

  /** The similarity of a row by its id, `None` without a comparable vector. */
  type Scorer = string -> Option<real>

  // ----- stable sort, best score first -----

  /** In front of everything that scores no better. */
  function Insert(h: Hit, hits: seq<Hit>): seq<Hit> {
    if hits == [] || hits[0].score <= h.score then [h] + hits else [hits[0]] + Insert(h, hits[1..])
  }

  function SortDesc(hits: seq<Hit>): seq<Hit> {
    if hits == [] then [] else Insert(hits[0], SortDesc(hits[1..]))
  }

  predicate Descending(hits: seq<Hit>) {
    forall i, j :: 0 <= i < j < |hits| ==> hits[i].score >= hits[j].score
  }

  /** The hits of one score, in order. */
  function OfScore(hits: seq<Hit>, score: real): seq<Hit> {
    if hits == [] then []
    else
      var rest := OfScore(hits[1..], score);
      if hits[0].score == score then [hits[0]] + rest else rest
  }

  lemma {:induction false} InsertSorts(h: Hit, hits: seq<Hit>, score: real)
    requires Descending(hits)
    ensures Descending(Insert(h, hits))
    ensures forall x :: x in Insert(h, hits) <==> x == h || x in hits
    ensures OfScore(Insert(h, hits), score) == OfScore([h] + hits, score)
  {
    assert ([h] + hits)[1..] == hits;
    if hits == [] || hits[0].score <= h.score {
    } else {
      InsertSorts(h, hits[1..], score);
      var rest := Insert(h, hits[1..]);
      assert forall x :: x in hits <==> x == hits[0] || x in hits[1..];
      forall x | x in rest ensures hits[0].score >= x.score {
        if x in hits[1..] {
          var k :| 0 < k < |hits| && hits[k] == x;
        }
      }
      PrependSorted(hits[0], rest);
      assert ([hits[0]] + rest)[1..] == rest;
      assert ([h] + hits[1..])[1..] == hits[1..];
    }
  }

  lemma PrependSorted(h: Hit, hits: seq<Hit>)
    requires Descending(hits) && forall x :: x in hits ==> h.score >= x.score
    ensures Descending([h] + hits)
  {
    var all := [h] + hits;
    assert forall j :: 0 < j < |all| ==> all[j] == hits[j - 1] && all[j] in hits;
  }

  /** Sorting orders by score and keeps the order of equal scores. */
  lemma {:induction false} SortIsStable(hits: seq<Hit>, score: real)
    ensures Descending(SortDesc(hits))
    ensures forall x :: x in SortDesc(hits) <==> x in hits
    ensures OfScore(SortDesc(hits), score) == OfScore(hits, score)
  {
    if hits == [] {
    } else {
      SortIsStable(hits[1..], score);
      InsertSorts(hits[0], SortDesc(hits[1..]), score);
      assert ([hits[0]] + SortDesc(hits[1..]))[1..] == SortDesc(hits[1..]);
      assert forall x :: x in hits <==> x == hits[0] || x in hits[1..];
    }
  }

  lemma {:induction false} OfScoreNonEmpty(hits: seq<Hit>, score: real)
    ensures OfScore(hits, score) != [] <==> exists h :: h in hits && h.score == score
    ensures OfScore(hits, score) != [] ==> OfScore(hits, score)[0] in hits && OfScore(hits, score)[0].score == score
  {
    if hits == [] {
    } else {
      OfScoreNonEmpty(hits[1..], score);
      assert forall x :: x in hits <==> x == hits[0] || x in hits[1..];
    }
  }

  /**
   There is only one stable sort: any descending arrangement that keeps the order within each
   score is the same one, so which algorithm sorts does not matter.
   */
  lemma {:induction false} StableSortUnique(a: seq<Hit>, b: seq<Hit>)
    requires Descending(a) && Descending(b)
    requires forall score :: OfScore(a, score) == OfScore(b, score)
    ensures a == b
    decreases |a|
  {
    if a == [] {
      if b != [] {
        OfScoreNonEmpty(a, b[0].score);
        OfScoreNonEmpty(b, b[0].score);
      }
    } else {
      HeadsAgree(a, b);
      forall score ensures OfScore(a[1..], score) == OfScore(b[1..], score) {
        assert OfScore(a, score) == OfScore(b, score);
        assert OfScore(a[1..], score) == if a[0].score == score then OfScore(a, score)[1..] else OfScore(a, score);
        assert OfScore(b[1..], score) == if b[0].score == score then OfScore(b, score)[1..] else OfScore(b, score);
      }
      StableSortUnique(a[1..], b[1..]);
      assert a == [a[0]] + a[1..] && b == [b[0]] + b[1..];
    }
  }

  lemma HeadsAgree(a: seq<Hit>, b: seq<Hit>)
    requires a != [] && Descending(a) && Descending(b)
    requires forall score :: OfScore(a, score) == OfScore(b, score)
    ensures b != [] && a[0] == b[0]
  {
    var top := a[0].score;
    assert a[0] in a;
    OfScoreNonEmpty(a, top);
    OfScoreNonEmpty(b, top);
    assert OfScore(a, top) == OfScore(b, top);
    var h :| h in b && h.score == top;
    assert b[0] in b && b[0].score >= top;
    OfScoreNonEmpty(b, b[0].score);
    OfScoreNonEmpty(a, b[0].score);
    assert OfScore(a, b[0].score) == OfScore(b, b[0].score);
    var g :| g in a && g.score == b[0].score;
    assert top >= g.score;
  }

  // ----- the two paths -----

  function Rows(hits: seq<Hit>): seq<InboundRow> {
    seq(|hits|, i requires 0 <= i < |hits| => hits[i].row)
  }

  /** The lexical rows that have a score, with it, in recall order. */
  function ScoredOf(rows: seq<InboundRow>, scorer: Scorer): seq<Hit> {
    if rows == [] then []
    else
      var before, last := ScoredOf(rows[..|rows| - 1], scorer), rows[|rows| - 1];
      match scorer(last.id)
      case Some(score) => before + [Hit(last, score)]
      case None => before
  }

  /** The lexical rows that have none, in recall order. */
  function UnscoredOf(rows: seq<InboundRow>, scorer: Scorer): seq<InboundRow> {
    if rows == [] then []
    else
      var before, last := UnscoredOf(rows[..|rows| - 1], scorer), rows[|rows| - 1];
      if scorer(last.id).None? then before + [last] else before
  }

  predicate IsLexical(id: string, lexical: seq<InboundRow>) {
    exists i :: 0 <= i < |lexical| && lexical[i].id == id
  }

  /** The scoped vectors of other rows that score at least `minScore`. */
  function VectorOnly(candidates: seq<Candidate>, lexical: seq<InboundRow>, cosine: Vec -> Option<real>,
                      minScore: real): seq<Hit> {
    if candidates == [] then []
    else
      var before := VectorOnly(candidates[..|candidates| - 1], lexical, cosine, minScore);
      var last := candidates[|candidates| - 1];
      var score := cosine(last.vec);
      if !IsLexical(last.row.id, lexical) && score.Some? && score.value >= minScore
      then before + [Hit(last.row, score.value)] else before
  }

  /** The first scoped vector of a row, scored. */
  function FindScore(id: string, candidates: seq<Candidate>, cosine: Vec -> Option<real>): Option<real> {
    if candidates == [] then None
    else if candidates[0].row.id == id then cosine(candidates[0].vec)
    else FindScore(id, candidates[1..], cosine)
  }

  /** Scores found by scanning the scoped vectors. */
  function Finder(candidates: seq<Candidate>, cosine: Vec -> Option<real>): Scorer {
    (id: string) => FindScore(id, candidates, cosine)
  }

  /** Scores looked up among the vectors of the lexical rows. */
  function Looker(vectors: map<string, Vec>, cosine: Vec -> Option<real>): Scorer {
    (id: string) => if id in vectors then cosine(vectors[id]) else None
  }

  /** The rerank-only result before it is cut: scored rows by score, then the others. */
  function Reranked(lexical: seq<InboundRow>, scorer: Scorer): seq<InboundRow> {
    Rows(SortDesc(ScoredOf(lexical, scorer))) + UnscoredOf(lexical, scorer)
  }

  /** The hybrid result before it is cut. */
  function Hybrid(lexical: seq<InboundRow>, candidates: seq<Candidate>, cosine: Vec -> Option<real>,
                  minScore: real): seq<InboundRow> {
    var scorer := Finder(candidates, cosine);
    Rows(SortDesc(ScoredOf(lexical, scorer) + VectorOnly(candidates, lexical, cosine, minScore)))
    + UnscoredOf(lexical, scorer)
  }

  /** `truncate` to a limit converted to an unsigned size: a negative one cuts nothing. */
  function Cut(rows: seq<InboundRow>, limit: int): seq<InboundRow> {
    if limit < 0 || |rows| <= limit then rows else rows[..limit]
  }

  /** The scan-cap path. `vectors` holds the vectors of the lexical rows that have one. */
  method RerankOnly(lexical: seq<InboundRow>, vectors: map<string, Vec>, cosine: Vec -> Option<real>, limit: int)
    returns (result: seq<InboundRow>)
    ensures result == Cut(Reranked(lexical, Looker(vectors, cosine)), limit)
  {
    ghost var scorer := Looker(vectors, cosine);
    if lexical == [] {
      return [];
    }
    var scored: seq<Hit>, unvectored: seq<InboundRow> := [], [];
    var i := 0;
    while i < |lexical|
      invariant i <= |lexical|
      invariant scored == ScoredOf(lexical[..i], scorer) && unvectored == UnscoredOf(lexical[..i], scorer)
    {
      var row := lexical[i];
      assert lexical[..i + 1][..i] == lexical[..i] && lexical[..i + 1][i] == row;
      if row.id in vectors {
        match cosine(vectors[row.id]) {
          case Some(score) => scored := scored + [Hit(row, score)];
          case None => unvectored := unvectored + [row];
        }
      } else {
        unvectored := unvectored + [row];
      }
      i := i + 1;
    }
    assert lexical[..i] == lexical;
    result := Cut(Rows(SortDesc(scored)) + unvectored, limit);
  }

  method HybridSearch(lexical: seq<InboundRow>, candidates: seq<Candidate>, cosine: Vec -> Option<real>,
                      minScore: real, limit: int)
    returns (result: seq<InboundRow>)
    ensures result == Cut(Hybrid(lexical, candidates, cosine, minScore), limit)
  {
    ghost var scorer := Finder(candidates, cosine);
    var scored: seq<Hit>, unvectored: seq<InboundRow> := [], [];
    var i := 0;
    while i < |lexical|
      invariant i <= |lexical|
      invariant scored == ScoredOf(lexical[..i], scorer) && unvectored == UnscoredOf(lexical[..i], scorer)
    {
      var row := lexical[i];
      assert lexical[..i + 1][..i] == lexical[..i] && lexical[..i + 1][i] == row;
      match FindScore(row.id, candidates, cosine) {
        case Some(score) => scored := scored + [Hit(row, score)];
        case None => unvectored := unvectored + [row];
      }
      i := i + 1;
    }
    assert lexical[..i] == lexical;
    ghost var ranked := scored;
    i := 0;
    while i < |candidates|
      invariant i <= |candidates|
      invariant scored == ranked + VectorOnly(candidates[..i], lexical, cosine, minScore)
    {
      var c := candidates[i];
      assert candidates[..i + 1][..i] == candidates[..i] && candidates[..i + 1][i] == c;
      if !IsLexical(c.row.id, lexical) {
        var score := cosine(c.vec);
        if score.Some? && score.value >= minScore {
          scored := scored + [Hit(c.row, score.value)];
        }
      }
      i := i + 1;
    }
    assert candidates[..i] == candidates;
    result := Cut(Rows(SortDesc(scored)) + unvectored, limit);
  }

  // ----- additive: the hybrid result restricted to lexical rows -----

  function KeepLexical(rows: seq<InboundRow>, lexical: seq<InboundRow>): seq<InboundRow> {
    if rows == [] then []
    else
      var rest := KeepLexical(rows[1..], lexical);
      if IsLexical(rows[0].id, lexical) then [rows[0]] + rest else rest
  }

  function KeepHits(hits: seq<Hit>, lexical: seq<InboundRow>): seq<Hit> {
    if hits == [] then []
    else
      var rest := KeepHits(hits[1..], lexical);
      if IsLexical(hits[0].row.id, lexical) then [hits[0]] + rest else rest
  }

  lemma {:induction false} KeepAppend(a: seq<InboundRow>, b: seq<InboundRow>, lexical: seq<InboundRow>)
    ensures KeepLexical(a + b, lexical) == KeepLexical(a, lexical) + KeepLexical(b, lexical)
  {
    if a == [] {
      assert a + b == b;
    } else {
      KeepAppend(a[1..], b, lexical);
      assert (a + b)[1..] == a[1..] + b;
    }
  }

  lemma {:induction false} KeepHitsAppend(a: seq<Hit>, b: seq<Hit>, lexical: seq<InboundRow>)
    ensures KeepHits(a + b, lexical) == KeepHits(a, lexical) + KeepHits(b, lexical)
  {
    if a == [] {
      assert a + b == b;
    } else {
      KeepHitsAppend(a[1..], b, lexical);
      assert (a + b)[1..] == a[1..] + b;
    }
  }

  lemma {:induction false} KeepRowsOfHits(hits: seq<Hit>, lexical: seq<InboundRow>)
    ensures KeepLexical(Rows(hits), lexical) == Rows(KeepHits(hits, lexical))
  {
    if hits == [] {
    } else {
      KeepRowsOfHits(hits[1..], lexical);
      assert Rows(hits)[1..] == Rows(hits[1..]);
      assert Rows([hits[0]] + KeepHits(hits[1..], lexical)) == [hits[0].row] + Rows(KeepHits(hits[1..], lexical));
    }
  }

  lemma {:induction false} InsertFront(h: Hit, hits: seq<Hit>)
    requires forall x :: x in hits ==> x.score <= h.score
    ensures Insert(h, hits) == [h] + hits
  {
    if hits == [] {
    } else {
      assert hits[0] in hits;
    }
  }

  /** Inserting and filtering commute on a sorted list. */
  lemma {:induction false} KeepInsert(h: Hit, hits: seq<Hit>, lexical: seq<InboundRow>)
    requires Descending(hits)
    ensures KeepHits(Insert(h, hits), lexical)
         == if IsLexical(h.row.id, lexical) then Insert(h, KeepHits(hits, lexical)) else KeepHits(hits, lexical)
  {
    if hits == [] || hits[0].score <= h.score {
      assert ([h] + hits)[1..] == hits;
      KeptAreHits(hits, lexical);
      forall x | x in hits ensures x.score <= h.score {
        var i :| 0 <= i < |hits| && hits[i] == x;
      }
      InsertFront(h, KeepHits(hits, lexical));
    } else {
      KeepInsert(h, hits[1..], lexical);
      assert ([hits[0]] + Insert(h, hits[1..]))[1..] == Insert(h, hits[1..]);
      if IsLexical(hits[0].row.id, lexical) {
        var kept := KeepHits(hits, lexical);
        assert kept[0] == hits[0] && kept[1..] == KeepHits(hits[1..], lexical);
      } else {
        KeptAreHits(hits[1..], lexical);
      }
    }
  }

  lemma {:induction false} KeptAreHits(hits: seq<Hit>, lexical: seq<InboundRow>)
    ensures forall x :: x in KeepHits(hits, lexical) ==> x in hits
  {
    if hits == [] {
    } else {
      KeptAreHits(hits[1..], lexical);
    }
  }

  lemma {:induction false} KeepSort(hits: seq<Hit>, lexical: seq<InboundRow>)
    ensures KeepHits(SortDesc(hits), lexical) == SortDesc(KeepHits(hits, lexical))
  {
    if hits == [] {
    } else {
      KeepSort(hits[1..], lexical);
      SortIsStable(hits[1..], 0.0);
      KeepInsert(hits[0], SortDesc(hits[1..]), lexical);
      if IsLexical(hits[0].row.id, lexical) {
        var kept := KeepHits(hits, lexical);
        assert kept[0] == hits[0] && kept[1..] == KeepHits(hits[1..], lexical);
      }
    }
  }

  lemma {:induction false} LexicalHitsKept(rows: seq<InboundRow>, scorer: Scorer, lexical: seq<InboundRow>)
    requires forall i :: 0 <= i < |rows| ==> IsLexical(rows[i].id, lexical)
    ensures KeepHits(ScoredOf(rows, scorer), lexical) == ScoredOf(rows, scorer)
    ensures KeepLexical(UnscoredOf(rows, scorer), lexical) == UnscoredOf(rows, scorer)
  {
    if rows == [] {
    } else {
      var front, last := rows[..|rows| - 1], rows[|rows| - 1];
      LexicalHitsKept(front, scorer, lexical);
      assert IsLexical(last.id, lexical);
      match scorer(last.id) {
        case Some(score) => KeepHitsAppend(ScoredOf(front, scorer), [Hit(last, score)], lexical);
        case None => KeepAppend(UnscoredOf(front, scorer), [last], lexical);
      }
    }
  }

  lemma {:induction false} VectorOnlyDropped(candidates: seq<Candidate>, lexical: seq<InboundRow>,
                                             cosine: Vec -> Option<real>, minScore: real)
    ensures KeepHits(VectorOnly(candidates, lexical, cosine, minScore), lexical) == []
  {
    if candidates == [] {
    } else {
      var front, last := candidates[..|candidates| - 1], candidates[|candidates| - 1];
      VectorOnlyDropped(front, lexical, cosine, minScore);
      var score := cosine(last.vec);
      if !IsLexical(last.row.id, lexical) && score.Some? && score.value >= minScore {
        KeepHitsAppend(VectorOnly(front, lexical, cosine, minScore), [Hit(last.row, score.value)], lexical);
      }
    }
  }

  lemma {:induction false} SameScores(rows: seq<InboundRow>, scorer: Scorer, scorer': Scorer)
    requires forall i :: 0 <= i < |rows| ==> scorer(rows[i].id) == scorer'(rows[i].id)
    ensures ScoredOf(rows, scorer) == ScoredOf(rows, scorer') && UnscoredOf(rows, scorer) == UnscoredOf(rows, scorer')
  {
    if rows == [] {
    } else {
      SameScores(rows[..|rows| - 1], scorer, scorer');
    }
  }

  /** Both vector lookups give the lexical rows the same scores. */
  ghost predicate LookupsAgree(lexical: seq<InboundRow>, candidates: seq<Candidate>, vectors: map<string, Vec>,
                               cosine: Vec -> Option<real>) {
    forall i :: 0 <= i < |lexical| ==>
      FindScore(lexical[i].id, candidates, cosine) == Looker(vectors, cosine)(lexical[i].id)
  }

  /**
   Hybrid search is additive: leaving out its vector-only rows gives exactly the rerank-only
   result, when both vector lookups agree on the lexical rows.
   */
  lemma HybridIsAdditive(lexical: seq<InboundRow>, candidates: seq<Candidate>, vectors: map<string, Vec>,
                         cosine: Vec -> Option<real>, minScore: real)
    requires LookupsAgree(lexical, candidates, vectors, cosine)
    ensures KeepLexical(Hybrid(lexical, candidates, cosine, minScore), lexical)
         == Reranked(lexical, Looker(vectors, cosine))
  {
    var find := Finder(candidates, cosine);
    var scored, extra := ScoredOf(lexical, find), VectorOnly(candidates, lexical, cosine, minScore);
    var rest := UnscoredOf(lexical, find);
    SameScores(lexical, Looker(vectors, cosine), find);
    KeepAppend(Rows(SortDesc(scored + extra)), rest, lexical);
    KeepRowsOfHits(SortDesc(scored + extra), lexical);
    KeepSort(scored + extra, lexical);
    KeepHitsAppend(scored, extra, lexical);
    LexicalHitsKept(lexical, find, lexical);
    VectorOnlyDropped(candidates, lexical, cosine, minScore);
    assert scored + [] == scored;
  }

  // ----- what the merge adds -----

  /** The candidate is shown although its row is not lexical. */
  ghost predicate Admitted(c: Candidate, lexical: seq<InboundRow>, cosine: Vec -> Option<real>, minScore: real) {
    !IsLexical(c.row.id, lexical) && cosine(c.vec).Some? && cosine(c.vec).value >= minScore
  }

  lemma {:induction false} VectorOnlyAre(candidates: seq<Candidate>, lexical: seq<InboundRow>,
                                         cosine: Vec -> Option<real>, minScore: real)
    ensures forall h :: h in VectorOnly(candidates, lexical, cosine, minScore) <==>
              exists c :: c in candidates && Admitted(c, lexical, cosine, minScore)
                          && h == Hit(c.row, cosine(c.vec).value)
  {
    if candidates == [] {
    } else {
      var front, last := candidates[..|candidates| - 1], candidates[|candidates| - 1];
      VectorOnlyAre(front, lexical, cosine, minScore);
      assert candidates == front + [last];
    }
  }

  lemma {:induction false} LexicalSplit(rows: seq<InboundRow>, scorer: Scorer)
    ensures multiset(Rows(ScoredOf(rows, scorer))) + multiset(UnscoredOf(rows, scorer)) == multiset(rows)
  {
    if rows == [] {
    } else {
      var front, last := rows[..|rows| - 1], rows[|rows| - 1];
      LexicalSplit(front, scorer);
      assert rows == front + [last];
      if scorer(last.id).Some? {
        var hits := ScoredOf(front, scorer);
        assert Rows(hits + [Hit(last, scorer(last.id).value)]) == Rows(hits) + [last];
      }
    }
  }

  lemma {:induction false} InsertKeepsAll(h: Hit, hits: seq<Hit>)
    ensures multiset(Rows(Insert(h, hits))) == multiset{h.row} + multiset(Rows(hits))
  {
    if hits == [] || hits[0].score <= h.score {
      assert Rows([h] + hits) == [h.row] + Rows(hits);
    } else {
      InsertKeepsAll(h, hits[1..]);
      assert Rows([hits[0]] + Insert(h, hits[1..])) == [hits[0].row] + Rows(Insert(h, hits[1..]));
      assert Rows(hits) == [hits[0].row] + Rows(hits[1..]);
    }
  }

  lemma {:induction false} SortKeepsAll(hits: seq<Hit>)
    ensures multiset(Rows(SortDesc(hits))) == multiset(Rows(hits))
  {
    if hits == [] {
    } else {
      SortKeepsAll(hits[1..]);
      InsertKeepsAll(hits[0], SortDesc(hits[1..]));
      assert Rows(hits) == [hits[0].row] + Rows(hits[1..]);
    }
  }

  /** The hybrid result holds every lexical row and every vector-only row, each as often as it
      came in. */
  lemma HybridHoldsAll(lexical: seq<InboundRow>, candidates: seq<Candidate>, cosine: Vec -> Option<real>,
                       minScore: real)
    ensures multiset(Hybrid(lexical, candidates, cosine, minScore))
         == multiset(lexical) + multiset(Rows(VectorOnly(candidates, lexical, cosine, minScore)))
  {
    var find := Finder(candidates, cosine);
    var scored, extra := ScoredOf(lexical, find), VectorOnly(candidates, lexical, cosine, minScore);
    var sorted, rest := Rows(SortDesc(scored + extra)), UnscoredOf(lexical, find);
    LexicalSplit(lexical, find);
    SortedUnion(scored, extra);
    assert Hybrid(lexical, candidates, cosine, minScore) == sorted + rest;
    assert multiset(sorted + rest) == multiset(sorted) + multiset(rest);
  }

  lemma SortedUnion(a: seq<Hit>, b: seq<Hit>)
    ensures multiset(Rows(SortDesc(a + b))) == multiset(Rows(a)) + multiset(Rows(b))
  {
    SortKeepsAll(a + b);
    assert Rows(a + b) == Rows(a) + Rows(b);
  }

  /** A row that is not lexical is shown exactly when it has an admitted vector. */
  lemma VectorOnlyExact(lexical: seq<InboundRow>, candidates: seq<Candidate>, cosine: Vec -> Option<real>,
                        minScore: real,
                        row: InboundRow)
    requires !IsLexical(row.id, lexical)
    ensures row in Hybrid(lexical, candidates, cosine, minScore) <==>
              exists c :: c in candidates && c.row == row && Admitted(c, lexical, cosine, minScore)
  {
    var extra := VectorOnly(candidates, lexical, cosine, minScore);
    HybridHoldsAll(lexical, candidates, cosine, minScore);
    VectorOnlyAre(candidates, lexical, cosine, minScore);
    assert row !in lexical;
    var all := Hybrid(lexical, candidates, cosine, minScore);
    assert row in all <==> row in multiset(all);
    assert row in Rows(extra) <==> exists h :: h in extra && h.row == row by {
      if h :| h in extra && h.row == row {
        var k :| 0 <= k < |extra| && extra[k] == h;
        assert Rows(extra)[k] == row;
      }
    }
  }

  // ----- no id twice, and what the cut can lose -----

  ghost predicate UniqueIds(rows: seq<InboundRow>) {
    forall i, j :: 0 <= i < j < |rows| ==> rows[i].id != rows[j].id
  }

  ghost predicate UniqueCandidates(candidates: seq<Candidate>) {
    forall i, j :: 0 <= i < j < |candidates| ==> candidates[i].row.id != candidates[j].row.id
  }

  lemma {:induction false} UniqueOnce(rows: seq<InboundRow>)
    requires UniqueIds(rows)
    ensures forall r :: multiset(rows)[r] <= 1
  {
    if rows == [] {
    } else {
      var front, last := rows[..|rows| - 1], rows[|rows| - 1];
      UniqueOnce(front);
      assert rows == front + [last];
      assert last !in front;
    }
  }

  lemma OnceUnique(rows: seq<InboundRow>)
    requires forall r :: multiset(rows)[r] <= 1
    requires forall a, b :: a in rows && b in rows && a.id == b.id ==> a == b
    ensures UniqueIds(rows)
  {
    forall i, j | 0 <= i < j < |rows| ensures rows[i].id != rows[j].id {
      assert rows == rows[..i] + [rows[i]] + rows[i + 1..j] + [rows[j]] + rows[j + 1..];
      assert rows[i] == rows[j] ==> multiset(rows)[rows[i]] >= 2;
      assert rows[i] in rows && rows[j] in rows;
    }
  }

  lemma {:induction false} VectorOnlyUnique(candidates: seq<Candidate>, lexical: seq<InboundRow>,
                                            cosine: Vec -> Option<real>, minScore: real)
    requires UniqueCandidates(candidates)
    ensures UniqueIds(Rows(VectorOnly(candidates, lexical, cosine, minScore)))
  {
    if candidates == [] {
    } else {
      var front, last := candidates[..|candidates| - 1], candidates[|candidates| - 1];
      VectorOnlyUnique(front, lexical, cosine, minScore);
      VectorOnlyAre(front, lexical, cosine, minScore);
      var before := VectorOnly(front, lexical, cosine, minScore);
      forall i | 0 <= i < |before| ensures before[i].row.id != last.row.id {
        assert before[i] in before;
        var c :| c in front && before[i].row == c.row;
        var k :| 0 <= k < |front| && front[k] == c;
        assert candidates[k] == c;
      }
      var all := VectorOnly(candidates, lexical, cosine, minScore);
      forall i, j | 0 <= i < j < |all| ensures Rows(all)[i].id != Rows(all)[j].id {
        assert j < |before| ==> Rows(before)[i].id != Rows(before)[j].id;
      }
    }
  }

  /** No id is shown twice, when neither recall holds one twice. */
  lemma HybridUnique(lexical: seq<InboundRow>, candidates: seq<Candidate>, cosine: Vec -> Option<real>, minScore: real)
    requires UniqueIds(lexical) && UniqueCandidates(candidates)
    ensures UniqueIds(Hybrid(lexical, candidates, cosine, minScore))
  {
    var all := Hybrid(lexical, candidates, cosine, minScore);
    var extra := Rows(VectorOnly(candidates, lexical, cosine, minScore));
    HybridHoldsAll(lexical, candidates, cosine, minScore);
    VectorOnlyUnique(candidates, lexical, cosine, minScore);
    UniqueOnce(lexical);
    UniqueOnce(extra);
    ExtraNotLexical(lexical, candidates, cosine, minScore);
    forall r ensures multiset(all)[r] <= 1 {
      assert multiset(all)[r] == multiset(lexical)[r] + multiset(extra)[r];
    }
    forall a, b | a in all && b in all && a.id == b.id ensures a == b {
      assert a in multiset(all) && b in multiset(all);
      assert (a in lexical || a in extra) && (b in lexical || b in extra);
    }
    OnceUnique(all);
  }

  lemma ExtraNotLexical(lexical: seq<InboundRow>, candidates: seq<Candidate>, cosine: Vec -> Option<real>,
                        minScore: real)
    ensures forall r :: r in Rows(VectorOnly(candidates, lexical, cosine, minScore)) ==> !IsLexical(r.id, lexical)
    ensures forall r :: r in lexical ==> IsLexical(r.id, lexical)
  {
    var extra := VectorOnly(candidates, lexical, cosine, minScore);
    VectorOnlyAre(candidates, lexical, cosine, minScore);
    forall r | r in Rows(extra) ensures !IsLexical(r.id, lexical) {
      var k :| 0 <= k < |extra| && Rows(extra)[k] == r;
      assert extra[k] in extra;
    }
  }

  /** The unscored lexical rows come last: they all survive the cut to `limit` exactly when there
      are none, or the merged result fits. */
  lemma UnscoredSurviveExactly(lexical: seq<InboundRow>, candidates: seq<Candidate>, cosine: Vec -> Option<real>,
                               minScore: real, limit: int)
    requires UniqueIds(lexical) && UniqueCandidates(candidates)
    ensures var all := Hybrid(lexical, candidates, cosine, minScore);
            var unscored := UnscoredOf(lexical, Finder(candidates, cosine));
            (forall r :: r in unscored ==> r in Cut(all, limit)) <==> unscored == [] || limit < 0 || |all| <= limit
  {
    var all := Hybrid(lexical, candidates, cosine, minScore);
    var unscored := UnscoredOf(lexical, Finder(candidates, cosine));
    HybridUnique(lexical, candidates, cosine, minScore);
    if unscored != [] {
      var last := unscored[|unscored| - 1];
      assert last in unscored && all[|all| - 1] == last;
      if 0 <= limit < |all| {
        forall i | 0 <= i < limit ensures Cut(all, limit)[i] != last {
          assert all[i].id != all[|all| - 1].id;
        }
      } else {
        forall r | r in unscored ensures r in all {
          var k :| 0 <= k < |unscored| && unscored[k] == r;
          assert all[|all| - |unscored| + k] == r;
        }
      }
    }
  }

  // ----- which lexical rows the cut loses -----

  function Above(hits: seq<Hit>, score: real): seq<Hit> {
    if hits == [] then []
    else
      var rest := Above(hits[1..], score);
      if hits[0].score > score then [hits[0]] + rest else rest
  }

  function Below(hits: seq<Hit>, score: real): seq<Hit> {
    if hits == [] then []
    else
      var rest := Below(hits[1..], score);
      if hits[0].score < score then [hits[0]] + rest else rest
  }

  function Lowest(hits: seq<Hit>): real
    requires hits != []
  {
    if |hits| == 1 || hits[0].score < Lowest(hits[1..]) then hits[0].score else Lowest(hits[1..])
  }

  /**
   How many places the lexical rows take in the merged result, with what is ranked before the
   last of them: every vector-only hit when a lexical row has no score, and otherwise those that
   score above the lowest lexical score.
   */
  function PlacesNeeded(lexical: seq<InboundRow>, candidates: seq<Candidate>, cosine: Vec -> Option<real>,
                        minScore: real): nat {
    var find := Finder(candidates, cosine);
    var extra := VectorOnly(candidates, lexical, cosine, minScore);
    if lexical == [] then 0
    else if UnscoredOf(lexical, find) != [] || ScoredOf(lexical, find) == [] then |lexical| + |extra|
    else |lexical| + |Above(extra, Lowest(ScoredOf(lexical, find)))|
  }

  lemma {:induction false} LowestIsLeast(hits: seq<Hit>)
    requires hits != []
    ensures forall h :: h in hits ==> h.score >= Lowest(hits)
    ensures exists h :: h in hits && h.score == Lowest(hits)
  {
    assert hits[0] in hits;
    if |hits| == 1 {
    } else {
      LowestIsLeast(hits[1..]);
      assert forall h :: h in hits <==> h == hits[0] || h in hits[1..];
    }
  }

  lemma {:induction false} AboveAre(hits: seq<Hit>, score: real)
    ensures forall h :: h in Above(hits, score) <==> h in hits && h.score > score
    ensures forall h :: h in OfScore(hits, score) <==> h in hits && h.score == score
    ensures |Above(hits, score)| + |OfScore(hits, score)| + |Below(hits, score)| == |hits|
  {
    if hits == [] {
    } else {
      AboveAre(hits[1..], score);
      assert forall h :: h in hits <==> h == hits[0] || h in hits[1..];
    }
  }

  lemma {:induction false} NoneBelow(hits: seq<Hit>, score: real)
    requires forall h :: h in hits ==> h.score >= score
    ensures Below(hits, score) == []
  {
    if hits == [] {
    } else {
      assert hits[0] in hits && forall h :: h in hits[1..] ==> h in hits;
      NoneBelow(hits[1..], score);
    }
  }

  lemma {:induction false} NoneAbove(hits: seq<Hit>, score: real)
    requires forall h :: h in hits ==> h.score <= score
    ensures Above(hits, score) == []
  {
    if hits == [] {
    } else {
      assert hits[0] in hits && forall h :: h in hits[1..] ==> h in hits;
      NoneAbove(hits[1..], score);
    }
  }

  lemma {:induction false} NoneEqual(hits: seq<Hit>, score: real)
    requires forall h :: h in hits ==> h.score < score
    ensures OfScore(hits, score) == []
  {
    if hits == [] {
    } else {
      assert hits[0] in hits && forall h :: h in hits[1..] ==> h in hits;
      NoneEqual(hits[1..], score);
    }
  }

  lemma {:induction false} SplitsAppend(a: seq<Hit>, b: seq<Hit>, score: real)
    ensures Above(a + b, score) == Above(a, score) + Above(b, score)
    ensures OfScore(a + b, score) == OfScore(a, score) + OfScore(b, score)
  {
    if a == [] {
      assert a + b == b;
    } else {
      assert (a + b)[1..] == a[1..] + b;
      SplitsAppend(a[1..], b, score);
    }
  }

  lemma {:induction false} InsertAbove(h: Hit, hits: seq<Hit>, score: real)
    ensures |Above(Insert(h, hits), score)| == |Above([h], score)| + |Above(hits, score)|
  {
    if hits == [] || hits[0].score <= h.score {
      SplitsAppend([h], hits, score);
    } else {
      InsertAbove(h, hits[1..], score);
      assert ([hits[0]] + Insert(h, hits[1..]))[1..] == Insert(h, hits[1..]);
    }
  }

  lemma {:induction false} SortAbove(hits: seq<Hit>, score: real)
    ensures |Above(SortDesc(hits), score)| == |Above(hits, score)|
  {
    if hits == [] {
    } else {
      SortAbove(hits[1..], score);
      InsertAbove(hits[0], SortDesc(hits[1..]), score);
      SplitsAppend([hits[0]], hits[1..], score);
      assert hits == [hits[0]] + hits[1..];
    }
  }

  lemma SplitOne(h: Hit, rest: seq<Hit>, score: real)
    requires rest == Above(rest, score) + OfScore(rest, score) + Below(rest, score)
    requires forall x :: x in rest ==> x.score <= h.score
    ensures var hits := [h] + rest; hits == Above(hits, score) + OfScore(hits, score) + Below(hits, score)
  {
    assert ([h] + rest)[1..] == rest;
    if h.score <= score {
      NoneAbove(rest, score);
    }
    if h.score < score {
      NoneEqual(rest, score);
    }
  }

  /** In descending order the better hits come first, then the equal ones. */
  lemma {:induction false} DescendingSplits(hits: seq<Hit>, score: real)
    requires Descending(hits)
    ensures hits == Above(hits, score) + OfScore(hits, score) + Below(hits, score)
  {
    if hits == [] {
    } else {
      var rest := hits[1..];
      DescendingSplits(rest, score);
      forall h | h in rest ensures h.score <= hits[0].score {
        var k :| 0 < k < |hits| && hits[k] == h;
      }
      SplitOne(hits[0], rest, score);
      assert hits == [hits[0]] + rest;
    }
  }

  /** Sorted together, hits of one list and of another: what leads up to the last of the first. */
  lemma SortedLead(a: seq<Hit>, b: seq<Hit>)
    requires a != []
    ensures var s, n, m := SortDesc(a + b), |a| + |Above(b, Lowest(a))|, Lowest(a);
            && n <= |s| && s[..n] == Above(s, m) + OfScore(a, m) && OfScore(a, m) != []
  {
    var s, m := SortDesc(a + b), Lowest(a);
    SortIsStable(a + b, m);
    DescendingSplits(s, m);
    SortAbove(a + b, m);
    SplitsAppend(a, b, m);
    LowestIsLeast(a);
    AboveAre(a, m);
    NoneBelow(a, m);
    LeadOfSorted(Above(s, m), OfScore(a, m), OfScore(b, m), Below(s, m), s);
    var h :| h in a && h.score == m;
    assert h in OfScore(a, m);
  }

  ghost predicate AllIn(hits: seq<Hit>, lead: seq<Hit>) {
    forall h :: h in hits ==> h in lead
  }

  lemma AllInLead(a: seq<Hit>, b: seq<Hit>)
    requires a != []
    ensures AllIn(a, Above(SortDesc(a + b), Lowest(a)) + OfScore(a, Lowest(a)))
  {
    var s, m := SortDesc(a + b), Lowest(a);
    SortIsStable(a + b, m);
    LowestIsLeast(a);
    AboveAre(a, m);
    AboveAre(s, m);
    forall h | h in a ensures h in Above(s, m) + OfScore(a, m) {
      assert h in a + b && h in s;
    }
  }

  lemma LeadEnds(s: seq<Hit>, n: nat, above: seq<Hit>, equal: seq<Hit>, a: seq<Hit>)
    requires n <= |s| && s[..n] == above + equal && equal != []
    requires AllIn(equal, a) && AllIn(a, above + equal)
    ensures 0 < n && s[n - 1] in a && AllIn(a, s[..n])
  {
    assert s[n - 1] == s[..n][n - 1] == equal[|equal| - 1];
    assert equal[|equal| - 1] in equal;
  }

  /** Where the last of the first list comes. */
  lemma LastOfFirst(a: seq<Hit>, b: seq<Hit>)
    requires a != []
    ensures var s, n := SortDesc(a + b), |a| + |Above(b, Lowest(a))|;
            0 < n <= |s| && s[n - 1] in a && AllIn(a, s[..n])
  {
    var m := Lowest(a);
    SortedLead(a, b);
    AllInLead(a, b);
    AboveAre(a, m);
    LeadEnds(SortDesc(a + b), |a| + |Above(b, m)|, Above(SortDesc(a + b), m), OfScore(a, m), a);
  }

  lemma LeadOfSorted(above: seq<Hit>, equal: seq<Hit>, others: seq<Hit>, below: seq<Hit>, s: seq<Hit>)
    requires s == above + (equal + others) + below
    ensures |above| + |equal| <= |s| && s[..|above| + |equal|] == above + equal
  {
  }

  lemma RowOfHit(hits: seq<Hit>, h: Hit)
    requires h in hits
    ensures h.row in Rows(hits)
  {
    var k :| 0 <= k < |hits| && hits[k] == h;
    assert Rows(hits)[k] == h.row;
  }

  lemma RowsInLead(hits: seq<Hit>, s: seq<Hit>, n: nat, r: InboundRow)
    requires n <= |s| && AllIn(hits, s[..n]) && r in Rows(hits)
    ensures r in Rows(s)[..n]
  {
    var k :| 0 <= k < |hits| && Rows(hits)[k] == r;
    assert hits[k] in s[..n];
    var j :| 0 <= j < n && s[j] == hits[k];
    assert Rows(s)[..n][j] == r;
  }

  lemma AllScored(lexical: seq<InboundRow>, find: Scorer)
    requires UnscoredOf(lexical, find) == []
    ensures |ScoredOf(lexical, find)| == |lexical|
    ensures forall r :: r in Rows(ScoredOf(lexical, find)) <==> r in lexical
  {
    var scored := Rows(ScoredOf(lexical, find));
    LexicalSplit(lexical, find);
    assert multiset(scored) == multiset(lexical);
    assert |scored| == |multiset(scored)| == |lexical|;
    forall r ensures r in scored <==> r in lexical {
      assert r in scored <==> r in multiset(scored);
      assert r in lexical <==> r in multiset(lexical);
    }
  }

  /** With every lexical row scored, the places of the merged result the lexical rows need. */
  lemma ScoredPlaces(lexical: seq<InboundRow>, candidates: seq<Candidate>, cosine: Vec -> Option<real>, minScore: real)
    requires lexical != [] && UnscoredOf(lexical, Finder(candidates, cosine)) == []
    ensures var all := Hybrid(lexical, candidates, cosine, minScore);
            var n := PlacesNeeded(lexical, candidates, cosine, minScore);
            && 0 < n <= |all| && all[n - 1] in lexical && forall r :: r in lexical ==> r in all[..n]
  {
    var find := Finder(candidates, cosine);
    var scored, extra := ScoredOf(lexical, find), VectorOnly(candidates, lexical, cosine, minScore);
    AllScored(lexical, find);
    LastOfFirst(scored, extra);
    var s, n := SortDesc(scored + extra), PlacesNeeded(lexical, candidates, cosine, minScore);
    assert Hybrid(lexical, candidates, cosine, minScore) == Rows(s);
    RowOfHit(scored, s[n - 1]);
    forall r | r in lexical ensures r in Rows(s)[..n] {
      RowsInLead(scored, s, n, r);
    }
  }

  /**
   Exactly when no row that matched the query's words is lost by the cut to `limit`: when the
   limit leaves the places the lexical rows need.
   */
  lemma LexicalSurviveExactly(lexical: seq<InboundRow>, candidates: seq<Candidate>, cosine: Vec -> Option<real>,
                              minScore: real, limit: int)
    requires UniqueIds(lexical) && UniqueCandidates(candidates)
    ensures (forall r :: r in lexical ==> r in Cut(Hybrid(lexical, candidates, cosine, minScore), limit))
            <==> limit < 0 || PlacesNeeded(lexical, candidates, cosine, minScore) <= limit
  {
    var all, n := Hybrid(lexical, candidates, cosine, minScore), PlacesNeeded(lexical, candidates, cosine, minScore);
    HybridHoldsAll(lexical, candidates, cosine, minScore);
    assert forall r :: r in lexical ==> r in multiset(all);
    assert |all| == |multiset(all)| == |lexical| + |VectorOnly(candidates, lexical, cosine, minScore)|;
    LexicalSplit(lexical, Finder(candidates, cosine));
    if lexical == [] {
    } else if UnscoredOf(lexical, Finder(candidates, cosine)) != [] {
      UnscoredSurviveExactly(lexical, candidates, cosine, minScore, limit);
      assert forall r :: r in UnscoredOf(lexical, Finder(candidates, cosine)) ==> r in multiset(lexical);
    } else {
      ScoredPlaces(lexical, candidates, cosine, minScore);
      if 0 <= limit < n {
        HybridUnique(lexical, candidates, cosine, minScore);
        forall i | 0 <= i < limit ensures all[i] != all[n - 1] {
          assert all[i].id != all[n - 1].id;
        }
      } else if n <= limit < |all| {
        assert forall r :: r in all[..n] ==> r in all[..limit];
      }
    }
  }

  function FirstCoordinate(v: Vec): Option<real> {
    if v == [] then None else Some(v[0])
  }

  /** A lexical row is lost although it has a score, and although nothing is unscored. */
  lemma ScoredLexicalRowLost()
    ensures var matched, other := InboundRow("a", ""), InboundRow("v", "");
            var candidates := [Candidate(matched, [0.1]), Candidate(other, [0.9])];
            && UnscoredOf([matched], Finder(candidates, FirstCoordinate)) == []
            && Cut(Hybrid([matched], candidates, FirstCoordinate, 0.5), 1) == [other]
  {
    var matched, other := InboundRow("a", ""), InboundRow("v", "");
    var candidates := [Candidate(matched, [0.1]), Candidate(other, [0.9])];
    var find := Finder(candidates, FirstCoordinate);
    assert [matched][..0] == [] && ScoredOf([matched], find) == [Hit(matched, 0.1)];
    assert [matched][0] == matched && IsLexical("a", [matched]);
    assert candidates[..1] == [candidates[0]] && candidates[..1][..0] == [];
    assert VectorOnly(candidates[..1], [matched], FirstCoordinate, 0.5) == [];
    assert VectorOnly(candidates, [matched], FirstCoordinate, 0.5) == [Hit(other, 0.9)];
    var both := [Hit(matched, 0.1), Hit(other, 0.9)];
    assert [Hit(matched, 0.1)] + [Hit(other, 0.9)] == both;
    assert both[1..] == [Hit(other, 0.9)] && both[1..][1..] == [];
    assert SortDesc(both[1..]) == [Hit(other, 0.9)] && [Hit(other, 0.9)][1..] == [];
    assert Insert(Hit(matched, 0.1), []) == [Hit(matched, 0.1)];
    assert SortDesc(both) == [Hit(other, 0.9), Hit(matched, 0.1)];
    assert Rows(SortDesc(both)) == [other, matched];
  }
}
