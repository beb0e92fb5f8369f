/**
 The phone's side of a fetch: one chat's history, oldest first, and what it means for a batch
 to answer a request for messages older than an anchor.
 */
module PhoneHistory {
  import opened KeyOrder
  import opened History

  /** A message that can be an anchor: a non-empty id, and a positive timestamp that stays
      exact in milliseconds. */
  predicate Keyed(m: WebMessageInfo) {
    m.id.Some? && m.id.value != "" && m.timestamp.Some? && 0 < m.timestamp.value && m.timestamp.value * 1000 <= I64_MAX
  }

  /** A message the extractor handles, so a row can hold it. */
  predicate Storable(m: WebMessageInfo) {
    m.id.Some? && m.payload.Some? && m.payload.value.Handled?
  }

  function KeyOf(m: WebMessageInfo): Key
    requires Keyed(m)
  {
    AnchorKey(MessageAnchor(m).value)
  }

  ghost predicate ValidHistory(h: seq<WebMessageInfo>) {
    && (forall i :: 0 <= i < |h| ==> Keyed(h[i]))
    && (forall i, j :: 0 <= i < j < |h| ==> Older(KeyOf(h[i]), KeyOf(h[j])))
    && (forall i, j :: 0 <= i < j < |h| ==> h[i].id.value != h[j].id.value)
  }

  /** How many messages of the history are older than an anchor. */
  ghost function Position(h: seq<WebMessageInfo>, a: Anchor): (p: nat)
    requires ValidHistory(h)
    ensures p <= |h|
  {
    if h == [] then 0
    else if Older(KeyOf(h[|h| - 1]), AnchorKey(a)) then |h|
    else
      assert ValidHistory(h[..|h| - 1]);
      Position(h[..|h| - 1], a)
  }

  /** The older messages are exactly the ones before the position. */
  lemma {:induction false} PositionSplits(h: seq<WebMessageInfo>, a: Anchor)
    requires ValidHistory(h)
    ensures forall i :: 0 <= i < |h| ==> (i < Position(h, a) <==> Older(KeyOf(h[i]), AnchorKey(a)))
  {
    if h == [] {
    } else {
      var last := |h| - 1;
      if Older(KeyOf(h[last]), AnchorKey(a)) {
        forall i | 0 <= i < last ensures Older(KeyOf(h[i]), AnchorKey(a)) {
          OlderTransitive(KeyOf(h[i]), KeyOf(h[last]), AnchorKey(a));
        }
      } else {
        assert ValidHistory(h[..last]);
        PositionSplits(h[..last], a);
        assert forall i :: 0 <= i < last ==> h[..last][i] == h[i];
      }
    }
  }

  lemma PositionOfMessage(h: seq<WebMessageInfo>, i: nat)
    requires ValidHistory(h) && i < |h|
    ensures Position(h, MessageAnchor(h[i]).value) == i
  {
    PositionSplits(h, MessageAnchor(h[i]).value);
    OlderIsStrictTotal(KeyOf(h[i]), KeyOf(h[i]));
  }

  /**
   `batch` holds, in any order, the block of the history just older than `a` that starts at
   `lo`: at most `count` messages, none only when nothing is older, and `moreRemain` says
   whether anything older than the block exists.
   */
  ghost predicate AnswersFrom(h: seq<WebMessageInfo>, a: Anchor, count: int, batch: HistoryBatch, lo: nat)
    requires ValidHistory(h)
  {
    var p := Position(h, a);
    && lo <= p && p - lo <= count && (lo == p ==> p == 0)
    && multiset(batch.messages) == multiset(h[lo..p])
    && batch.moreRemain == (lo > 0)
  }

  ghost predicate Answers(h: seq<WebMessageInfo>, a: Anchor, count: int, batch: HistoryBatch)
    requires ValidHistory(h)
  {
    exists lo: nat :: AnswersFrom(h, a, count, batch, lo)
  }

  lemma SameElements(s: seq<WebMessageInfo>, t: seq<WebMessageInfo>)
    requires multiset(s) == multiset(t)
    ensures |s| == |t|
    ensures forall m :: m in s <==> m in t
  {
    assert |multiset(s)| == |s| && |multiset(t)| == |t|;
    forall m ensures m in s <==> m in t {
      assert m in s <==> m in multiset(s);
      assert m in t <==> m in multiset(t);
    }
  }

  lemma OldestOfBlock(h: seq<WebMessageInfo>, lo: nat, hi: nat, messages: seq<WebMessageInfo>)
    requires ValidHistory(h) && lo < hi <= |h|
    requires forall m :: m in messages <==> m in h[lo..hi]
    ensures OldestAnchor(messages) == MessageAnchor(h[lo])
  {
    assert h[lo..hi][0] == h[lo];
    assert h[lo] in messages && MessageAnchor(h[lo]).Some?;
    OldestIsLeast(messages);
    var oldest := OldestAnchor(messages);
    var m :| m in messages && MessageAnchor(m) == oldest;
    assert m in h[lo..hi];
    var k :| lo <= k < hi && h[k] == m;
    assert !Older(KeyOf(h[lo]), KeyOf(h[k]));
  }

  /** The next anchor is exactly the start of the block; an empty answer has none. */
  lemma AnswerMovesAnchor(h: seq<WebMessageInfo>, a: Anchor, count: int, batch: HistoryBatch, lo: nat)
    requires ValidHistory(h) && AnswersFrom(h, a, count, batch, lo)
    ensures |batch.messages| == Position(h, a) - lo
    ensures lo < Position(h, a) ==> OldestAnchor(batch.messages) == MessageAnchor(h[lo])
                                    && Position(h, OldestAnchor(batch.messages).value) == lo
    ensures lo == Position(h, a) ==> OldestAnchor(batch.messages).None?
  {
    SameElements(batch.messages, h[lo..Position(h, a)]);
    if lo == Position(h, a) {
      assert batch.messages == [];
    } else {
      OldestOfBlock(h, lo, Position(h, a), batch.messages);
      PositionOfMessage(h, lo);
    }
  }
}
