/**
 Splitting a history chunk into one batch per conversation (src/backfill.rs,
 `drain_history_sync` and `drain_all_conversations`).
 */
module DrainConversations {
  import opened Wrappers
  import opened History

  /** `endType` is the conversation's `end_of_history_transfer_type`. */
  datatype Conversation =
    Conversation(id: string, pnJid: Option<string>, endType: Option<int>, messages: seq<Option<WebMessageInfo>>)

  datatype HistorySync = HistorySync(conversations: seq<Conversation>, progress: Option<nat>)

  datatype ConversationBatch = ConversationBatch(id: string, pnJid: Option<string>, batch: HistoryBatch)

  /** Unsure means more. */
  predicate MoreByProgress(progress: Option<nat>) {
    progress.Some? ==> progress.value < 100
  }

  predicate ConversationMore(c: Conversation, progress: Option<nat>) {
    if c.endType == Some(0) || c.endType == Some(2) then true
    else if c.endType == Some(1) || c.endType == Some(3) then false
    else MoreByProgress(progress)
  }

  /** A payload, a non-empty id and a positive timestamp that fits a signed 64-bit number. */
  predicate IsStorable(m: WebMessageInfo) {
    m.payload.Some? && m.id.Some? && m.id.value != "" && m.timestamp.Some? && 0 < m.timestamp.value <= I64_MAX
  }

  /** The messages that are present, in order. */
  function Present(messages: seq<Option<WebMessageInfo>>): seq<WebMessageInfo> {
    if messages == [] then []
    else
      var n := |messages| - 1;
      if messages[n].Some? then Present(messages[..n]) + [messages[n].value] else Present(messages[..n])
  }

  /** The messages of a list of conversations, one after the other. */
  function Gather(cs: seq<Conversation>): seq<WebMessageInfo> {
    if cs == [] then [] else Gather(cs[..|cs| - 1]) + Present(cs[|cs| - 1].messages)
  }

  function Retain(messages: seq<WebMessageInfo>): seq<WebMessageInfo> {
    if messages == [] then []
    else
      var n := |messages| - 1;
      if IsStorable(messages[n]) then Retain(messages[..n]) + [messages[n]] else Retain(messages[..n])
  }

  /** The conversations with one of the given ids, in order. */
  function Matched(cs: seq<Conversation>, ids: seq<string>): seq<Conversation> {
    if cs == [] then []
    else
      var n := |cs| - 1;
      if cs[n].id in ids then Matched(cs[..n], ids) + [cs[n]] else Matched(cs[..n], ids)
  }

  predicate AnyMore(cs: seq<Conversation>, progress: Option<nat>) {
    exists c :: c in cs && ConversationMore(c, progress)
  }

  function Drained(hs: HistorySync, ids: seq<string>): HistoryBatch {
    var matched := Matched(hs.conversations, ids);
    if matched != [] then HistoryBatch(Gather(matched), AnyMore(matched, hs.progress))
    else if |hs.conversations| == 1 then
      HistoryBatch(Present(hs.conversations[0].messages), ConversationMore(hs.conversations[0], hs.progress))
    else HistoryBatch([], MoreByProgress(hs.progress))
  }

  method CollectPresent(messages: seq<Option<WebMessageInfo>>, before: seq<WebMessageInfo>)
    returns (all: seq<WebMessageInfo>)
    ensures all == before + Present(messages)
  {
    all := before;
    for i := 0 to |messages|
      invariant all == before + Present(messages[..i])
    {
      assert messages[..i + 1][..i] == messages[..i];
      if messages[i].Some? {
        all := all + [messages[i].value];
      }
    }
    assert messages[..|messages|] == messages;
  }

  method DrainHistorySync(hs: HistorySync, ids: seq<string>) returns (batch: HistoryBatch)
    ensures batch == Drained(hs, ids)
  {
    var cs := hs.conversations;
    var messages: seq<WebMessageInfo> := [];
    var foundAny, moreRemain := false, false;
    for i := 0 to |cs|
      invariant messages == Gather(Matched(cs[..i], ids))
      invariant foundAny <==> Matched(cs[..i], ids) != []
      invariant moreRemain <==> AnyMore(Matched(cs[..i], ids), hs.progress)
    {
      assert cs[..i + 1][..i] == cs[..i];
      if cs[i].id in ids {
        ghost var before := Matched(cs[..i], ids);
        assert Matched(cs[..i + 1], ids) == before + [cs[i]];
        assert (before + [cs[i]])[..|before|] == before;
        MoreOfAppended(before, cs[i], hs.progress);
        foundAny := true;
        messages := CollectPresent(cs[i].messages, messages);
        var more := ConversationMore(cs[i], hs.progress);
        moreRemain := moreRemain || more;
      }
    }
    assert cs[..|cs|] == cs;
    if !foundAny && |cs| == 1 {
      foundAny := true;
      messages := CollectPresent(cs[0].messages, []);
      moreRemain := ConversationMore(cs[0], hs.progress);
    }
    if !foundAny {
      moreRemain := MoreByProgress(hs.progress);
    }
    batch := HistoryBatch(messages, moreRemain);
  }

  lemma MoreOfAppended(cs: seq<Conversation>, c: Conversation, progress: Option<nat>)
    ensures AnyMore(cs + [c], progress) <==> AnyMore(cs, progress) || ConversationMore(c, progress)
  {
    if ConversationMore(c, progress) {
      assert c in cs + [c];
    }
    if x :| x in cs && ConversationMore(x, progress) {
      assert x in cs + [c];
    }
  }

  // ----- one batch per conversation -----

  predicate KeptId(id: string, skip: string -> bool) {
    id != "" && !skip(id)
  }

  /** The distinct ids of kept conversations, by first occurrence. */
  function FirstIds(cs: seq<Conversation>, skip: string -> bool): seq<string> {
    if cs == [] then []
    else
      var n := |cs| - 1;
      var before := FirstIds(cs[..n], skip);
      if KeptId(cs[n].id, skip) && cs[n].id !in before then before + [cs[n].id] else before
  }

  /** The position of the first conversation with an id. */
  function FirstWith(cs: seq<Conversation>, id: string): (k: nat)
    ensures k <= |cs|
    ensures forall i :: 0 <= i < k ==> cs[i].id != id
    ensures k < |cs| ==> cs[k].id == id
  {
    if cs == [] || cs[0].id == id then 0 else 1 + FirstWith(cs[1..], id)
  }

  function PnJidOf(cs: seq<Conversation>, id: string): Option<string> {
    var k := FirstWith(cs, id);
    if k < |cs| then NonEmpty(cs[k].pnJid) else None
  }

  function BatchFor(hs: HistorySync, id: string): HistoryBatch {
    var drained := Drained(hs, [id]);
    drained.(messages := Retain(drained.messages))
  }

  /** One batch per id, those without messages left out. */
  function BatchesFor(hs: HistorySync, ids: seq<string>): seq<ConversationBatch> {
    if ids == [] then []
    else
      var n := |ids| - 1;
      var before := BatchesFor(hs, ids[..n]);
      if BatchFor(hs, ids[n]).messages == [] then before
      else before + [ConversationBatch(ids[n], PnJidOf(hs.conversations, ids[n]), BatchFor(hs, ids[n]))]
  }

  method DrainAllConversations(hs: HistorySync, skip: string -> bool) returns (batches: seq<ConversationBatch>)
    ensures batches == BatchesFor(hs, FirstIds(hs.conversations, skip))
  {
    var cs := hs.conversations;
    var seen: set<string> := {};
    batches := [];
    for i := 0 to |cs|
      invariant forall id :: id in seen <==> id in FirstIds(cs[..i], skip)
      invariant batches == BatchesFor(hs, FirstIds(cs[..i], skip))
    {
      assert cs[..i + 1][..i] == cs[..i];
      var id := cs[i].id;
      if id == "" || skip(id) || id in seen {
        continue;
      }
      ghost var before := FirstIds(cs[..i], skip);
      FirstIdsKept(cs[..i], skip, id);
      FirstWithAt(cs, id, i);
      assert (before + [id])[..|before|] == before;
      seen := seen + {id};
      var batch := DrainHistorySync(hs, [id]);
      batch := batch.(messages := Retain(batch.messages));
      if batch.messages != [] {
        batches := batches + [ConversationBatch(id, NonEmpty(cs[i].pnJid), batch)];
      }
    }
    assert cs[..|cs|] == cs;
  }

  lemma FirstWithAt(cs: seq<Conversation>, id: string, i: nat)
    requires i < |cs| && cs[i].id == id && forall c :: c in cs[..i] ==> c.id != id
    ensures FirstWith(cs, id) == i
  {
  }

  /** The collected ids are exactly those of the kept conversations. */
  lemma {:induction false} FirstIdsKept(cs: seq<Conversation>, skip: string -> bool, id: string)
    ensures id in FirstIds(cs, skip) <==> KeptId(id, skip) && exists c :: c in cs && c.id == id
  {
    if cs == [] {
    } else {
      var n := |cs| - 1;
      FirstIdsKept(cs[..n], skip, id);
      assert cs == cs[..n] + [cs[n]];
      assert cs[n] in cs;
    }
  }

  /** What is known of one batch: it holds the storable messages of all the conversations with
      its id and no others, in chunk order, and it says more remains when any of them does. */
  ghost predicate ExactBatch(hs: HistorySync, b: ConversationBatch) {
    var own := Matched(hs.conversations, [b.id]);
    && own != []
    && b.pnJid == NonEmpty(own[0].pnJid)
    && b.batch.messages == Retain(Gather(own))
    && b.batch.messages != []
    && b.batch.moreRemain == AnyMore(own, hs.progress)
  }

  lemma {:induction false} MatchedHas(cs: seq<Conversation>, ids: seq<string>, c: Conversation)
    ensures c in Matched(cs, ids) <==> c in cs && c.id in ids
  {
    if cs == [] {
    } else {
      var n := |cs| - 1;
      MatchedHas(cs[..n], ids, c);
      assert cs == cs[..n] + [cs[n]];
    }
  }

  lemma FirstWithFront(cs: seq<Conversation>, n: nat, id: string)
    requires n <= |cs|
    ensures FirstWith(cs, id) < n ==> FirstWith(cs[..n], id) == FirstWith(cs, id)
    ensures FirstWith(cs[..n], id) < n ==> FirstWith(cs, id) == FirstWith(cs[..n], id)
  {
    var k, l := FirstWith(cs, id), FirstWith(cs[..n], id);
    if k < n {
      assert cs[..n][k].id == id;
    }
    if l < n {
      assert cs[l].id == id;
    }
  }

  lemma NoneMatched(cs: seq<Conversation>, id: string)
    requires FirstWith(cs, id) == |cs|
    ensures Matched(cs, [id]) == []
  {
    var matched := Matched(cs, [id]);
    if matched != [] {
      MatchedHas(cs, [id], matched[0]);
    }
  }

  lemma {:induction false} MatchedFirst(cs: seq<Conversation>, id: string)
    requires FirstWith(cs, id) < |cs|
    ensures Matched(cs, [id]) != [] && Matched(cs, [id])[0] == cs[FirstWith(cs, id)]
  {
    var n := |cs| - 1;
    FirstWithFront(cs, n, id);
    if FirstWith(cs, id) < n {
      MatchedFirst(cs[..n], id);
    } else {
      NoneMatched(cs[..n], id);
    }
  }

  /** The single-conversation fallback never fires: every id asked for is there. */
  lemma BatchOfOwnId(hs: HistorySync, id: string)
    requires FirstWith(hs.conversations, id) < |hs.conversations|
    requires BatchFor(hs, id).messages != []
    ensures ExactBatch(hs, ConversationBatch(id, PnJidOf(hs.conversations, id), BatchFor(hs, id)))
  {
    MatchedFirst(hs.conversations, id);
  }

  /** Where the ids first occur. */
  function Places(cs: seq<Conversation>, ids: seq<string>): (r: seq<nat>)
    ensures |r| == |ids| && forall i :: 0 <= i < |r| ==> r[i] == FirstWith(cs, ids[i])
  {
    seq(|ids|, i requires 0 <= i < |ids| => FirstWith(cs, ids[i]))
  }

  predicate IncreasingBelow(places: seq<nat>, bound: nat) {
    && (forall i, j :: 0 <= i < j < |places| ==> places[i] < places[j])
    && (forall i :: 0 <= i < |places| ==> places[i] < bound)
  }

  /** Increasing first occurrences, so in particular distinct ids. */
  ghost predicate FirstOccurrenceOrder(cs: seq<Conversation>, ids: seq<string>) {
    IncreasingBelow(Places(cs, ids), |cs|)
  }

  /** More conversations behind do not change the order. */
  lemma OrderedFront(cs: seq<Conversation>, n: nat, ids: seq<string>)
    requires n <= |cs| && FirstOccurrenceOrder(cs[..n], ids)
    ensures Places(cs, ids) == Places(cs[..n], ids) && IncreasingBelow(Places(cs, ids), n)
  {
    forall i | 0 <= i < |ids| ensures FirstWith(cs, ids[i]) == FirstWith(cs[..n], ids[i]) {
      assert Places(cs[..n], ids)[i] < n;
      FirstWithFront(cs, n, ids[i]);
    }
  }

  lemma IncreasingSnoc(places: seq<nat>, place: nat, bound: nat)
    requires IncreasingBelow(places, place) && place < bound
    ensures IncreasingBelow(places + [place], bound)
  {
  }

  /** An id that first occurs behind all the others comes last. */
  lemma OrderedSnoc(cs: seq<Conversation>, ids: seq<string>, id: string)
    requires IncreasingBelow(Places(cs, ids), FirstWith(cs, id)) && FirstWith(cs, id) < |cs|
    ensures FirstOccurrenceOrder(cs, ids + [id])
  {
    assert Places(cs, ids + [id]) == Places(cs, ids) + [FirstWith(cs, id)];
    IncreasingSnoc(Places(cs, ids), FirstWith(cs, id), |cs|);
  }

  lemma {:induction false} FirstIdsOrdered(cs: seq<Conversation>, skip: string -> bool)
    ensures FirstOccurrenceOrder(cs, FirstIds(cs, skip))
  {
    if cs == [] {
    } else {
      var n := |cs| - 1;
      var before := FirstIds(cs[..n], skip);
      FirstIdsOrdered(cs[..n], skip);
      OrderedFront(cs, n, before);
      if KeptId(cs[n].id, skip) && cs[n].id !in before {
        FirstIdsKept(cs[..n], skip, cs[n].id);
        FirstWithAt(cs, cs[n].id, n);
        OrderedSnoc(cs, before, cs[n].id);
      }
    }
  }

  function Ids(batches: seq<ConversationBatch>): (r: seq<string>)
    ensures |r| == |batches| && forall i :: 0 <= i < |r| ==> r[i] == batches[i].id
  {
    seq(|batches|, i requires 0 <= i < |batches| => batches[i].id)
  }

  lemma {:induction false} BatchIds(hs: HistorySync, ids: seq<string>, b: ConversationBatch)
    requires b in BatchesFor(hs, ids)
    ensures b.id in ids && b == ConversationBatch(b.id, PnJidOf(hs.conversations, b.id), BatchFor(hs, b.id))
    ensures b.batch.messages != []
  {
    var n := |ids| - 1;
    if b !in BatchesFor(hs, ids[..n]) {
    } else {
      BatchIds(hs, ids[..n], b);
    }
  }

  lemma BatchesBefore(hs: HistorySync, ids: seq<string>, id: string)
    requires FirstOccurrenceOrder(hs.conversations, ids + [id])
    requires FirstOccurrenceOrder(hs.conversations, Ids(BatchesFor(hs, ids)))
    ensures IncreasingBelow(Places(hs.conversations, Ids(BatchesFor(hs, ids))), FirstWith(hs.conversations, id))
  {
    var cs, batches := hs.conversations, BatchesFor(hs, ids);
    var places, all := Places(cs, Ids(batches)), Places(cs, ids + [id]);
    forall i | 0 <= i < |places| ensures places[i] < FirstWith(cs, id) {
      BatchIds(hs, ids, batches[i]);
      var k :| 0 <= k < |ids| && ids[k] == batches[i].id;
      assert all[k] == places[i] && all[|ids|] == FirstWith(cs, id);
    }
  }

  lemma OrderedPrefix(cs: seq<Conversation>, ids: seq<string>, n: nat)
    requires n <= |ids| && FirstOccurrenceOrder(cs, ids)
    ensures FirstOccurrenceOrder(cs, ids[..n])
  {
    assert forall i :: 0 <= i < n ==> Places(cs, ids[..n])[i] == Places(cs, ids)[i];
  }

  /** Leaving out the empty ones keeps the order. */
  lemma {:induction false} BatchesOrdered(hs: HistorySync, ids: seq<string>)
    requires FirstOccurrenceOrder(hs.conversations, ids)
    ensures FirstOccurrenceOrder(hs.conversations, Ids(BatchesFor(hs, ids)))
  {
    if ids == [] {
    } else {
      var n := |ids| - 1;
      var front := BatchesFor(hs, ids[..n]);
      OrderedPrefix(hs.conversations, ids, n);
      BatchesOrdered(hs, ids[..n]);
      if BatchFor(hs, ids[n]).messages != [] {
        assert ids == ids[..n] + [ids[n]];
        BatchesBefore(hs, ids[..n], ids[n]);
        assert Places(hs.conversations, ids)[n] < |hs.conversations|;
        OrderedSnoc(hs.conversations, Ids(front), ids[n]);
        assert Ids(BatchesFor(hs, ids)) == Ids(front) + [ids[n]];
      }
    }
  }

  lemma FirstOfAll(cs: seq<Conversation>, ids: seq<string>, id: string)
    requires FirstOccurrenceOrder(cs, ids) && id in ids
    ensures FirstWith(cs, id) < |cs|
  {
    var k :| 0 <= k < |ids| && ids[k] == id;
    assert Places(cs, ids)[k] < |cs|;
  }

  /** Kept ids in first-occurrence order, each with exactly its own storable messages. */
  lemma BatchesAreExactInOrder(hs: HistorySync, skip: string -> bool)
    ensures var bs := BatchesFor(hs, FirstIds(hs.conversations, skip));
            && FirstOccurrenceOrder(hs.conversations, Ids(bs))
            && (forall b :: b in bs ==> KeptId(b.id, skip) && ExactBatch(hs, b))
  {
    var ids := FirstIds(hs.conversations, skip);
    FirstIdsOrdered(hs.conversations, skip);
    BatchesOrdered(hs, ids);
    forall b | b in BatchesFor(hs, ids) ensures KeptId(b.id, skip) && ExactBatch(hs, b) {
      BatchIds(hs, ids, b);
      FirstOfAll(hs.conversations, ids, b.id);
      FirstIdsKept(hs.conversations, skip, b.id);
      BatchOfOwnId(hs, b.id);
    }
  }

  // ----- nothing lost, nothing twice -----

  /** All the storable messages of the conversations with one of the ids. */
  function StorableOf(cs: seq<Conversation>, ids: seq<string>): seq<WebMessageInfo> {
    Retain(Gather(Matched(cs, ids)))
  }

  function Flatten(batches: seq<ConversationBatch>): seq<WebMessageInfo> {
    if batches == [] then []
    else Flatten(batches[..|batches| - 1]) + batches[|batches| - 1].batch.messages
  }

  lemma {:induction false} RetainAppends(a: seq<WebMessageInfo>, b: seq<WebMessageInfo>)
    ensures Retain(a + b) == Retain(a) + Retain(b)
    decreases |b|
  {
    if b == [] {
      assert a + b == a;
    } else {
      var n := |b| - 1;
      assert (a + b)[..|a + b| - 1] == a + b[..n];
      RetainAppends(a, b[..n]);
    }
  }

  /** The last conversation's share. */
  function Share(c: Conversation, ids: seq<string>): seq<WebMessageInfo> {
    if c.id in ids then Retain(Present(c.messages)) else []
  }

  lemma StorableOfLast(cs: seq<Conversation>, ids: seq<string>)
    requires cs != []
    ensures StorableOf(cs, ids) == StorableOf(cs[..|cs| - 1], ids) + Share(cs[|cs| - 1], ids)
  {
    var n := |cs| - 1;
    var front := Matched(cs[..n], ids);
    if cs[n].id in ids {
      assert (front + [cs[n]])[..|front|] == front;
      RetainAppends(Gather(front), Present(cs[n].messages));
    }
  }

  /** A new id adds exactly its own messages. */
  lemma {:induction false} StorableOfNewId(cs: seq<Conversation>, ids: seq<string>, id: string)
    requires id !in ids
    ensures multiset(StorableOf(cs, ids + [id])) == multiset(StorableOf(cs, ids)) + multiset(StorableOf(cs, [id]))
  {
    if cs == [] {
    } else {
      var n := |cs| - 1;
      StorableOfNewId(cs[..n], ids, id);
      StorableOfLast(cs, ids + [id]);
      StorableOfLast(cs, ids);
      StorableOfLast(cs, [id]);
    }
  }

  lemma {:induction false} BatchesHold(hs: HistorySync, ids: seq<string>)
    requires FirstOccurrenceOrder(hs.conversations, ids)
    ensures multiset(Flatten(BatchesFor(hs, ids))) == multiset(StorableOf(hs.conversations, ids))
  {
    if ids == [] {
      NothingMatched(hs.conversations);
    } else {
      var n := |ids| - 1;
      var cs, front := hs.conversations, BatchesFor(hs, ids[..n]);
      OrderedPrefix(cs, ids, n);
      BatchesHold(hs, ids[..n]);
      assert ids == ids[..n] + [ids[n]];
      LastIsNew(cs, ids);
      FirstOfAll(cs, ids, ids[n]);
      StorableOfNewId(cs, ids[..n], ids[n]);
      MatchedFirst(cs, ids[n]);
      assert BatchFor(hs, ids[n]).messages == StorableOf(cs, [ids[n]]);
      if BatchFor(hs, ids[n]).messages != [] {
        var all := BatchesFor(hs, ids);
        assert all[..|all| - 1] == front;
      }
    }
  }

  lemma LastIsNew(cs: seq<Conversation>, ids: seq<string>)
    requires FirstOccurrenceOrder(cs, ids) && ids != []
    ensures ids[|ids| - 1] !in ids[..|ids| - 1]
  {
    var places, n := Places(cs, ids), |ids| - 1;
    forall k | 0 <= k < n ensures ids[k] != ids[n] {
      assert places[k] < places[n];
    }
  }

  lemma {:induction false} NothingMatched(cs: seq<Conversation>)
    ensures Matched(cs, []) == []
  {
    if cs == [] {
    } else {
      NothingMatched(cs[..|cs| - 1]);
    }
  }

  function KeptConversations(cs: seq<Conversation>, skip: string -> bool): seq<Conversation> {
    if cs == [] then []
    else
      var n := |cs| - 1;
      if KeptId(cs[n].id, skip) then KeptConversations(cs[..n], skip) + [cs[n]] else KeptConversations(cs[..n], skip)
  }

  lemma {:induction false} MatchedAreKept(cs: seq<Conversation>, ids: seq<string>, skip: string -> bool)
    requires forall c :: c in cs ==> (c.id in ids <==> KeptId(c.id, skip))
    ensures Matched(cs, ids) == KeptConversations(cs, skip)
  {
    if cs == [] {
    } else {
      var n := |cs| - 1;
      assert cs[n] in cs && forall c :: c in cs[..n] ==> c in cs;
      MatchedAreKept(cs[..n], ids, skip);
    }
  }

  /** Conservation: every storable message of a kept conversation lands in exactly one batch, as
      often as the chunk has it, and the batches hold nothing else. */
  lemma BatchesPartition(hs: HistorySync, skip: string -> bool)
    ensures multiset(Flatten(BatchesFor(hs, FirstIds(hs.conversations, skip))))
         == multiset(Retain(Gather(KeptConversations(hs.conversations, skip))))
  {
    var cs := hs.conversations;
    var ids := FirstIds(cs, skip);
    FirstIdsOrdered(cs, skip);
    BatchesHold(hs, ids);
    forall c | c in cs ensures c.id in ids <==> KeptId(c.id, skip) {
      FirstIdsKept(cs, skip, c.id);
    }
    MatchedAreKept(cs, ids, skip);
  }

  lemma {:induction false} RetainedAreStorable(messages: seq<WebMessageInfo>)
    ensures forall m :: m in Retain(messages) ==> IsStorable(m)
  {
    if messages == [] {
    } else {
      RetainedAreStorable(messages[..|messages| - 1]);
    }
  }

  /** Every batch has a usable anchor: a message to fetch backwards from. */
  lemma BatchHasAnchor(hs: HistorySync, skip: string -> bool, b: ConversationBatch)
    requires b in BatchesFor(hs, FirstIds(hs.conversations, skip))
    ensures var a := OldestAnchor(b.batch.messages);
            a.Some? && a.value.id != "" && a.value.tsMs > 0
  {
    BatchesAreExactInOrder(hs, skip);
    var messages := b.batch.messages;
    RetainedAreStorable(Gather(Matched(hs.conversations, [b.id])));
    OldestIsLeast(messages);
    assert messages[0] in messages && MessageAnchor(messages[0]).Some?;
    var m :| m in messages && MessageAnchor(m) == OldestAnchor(messages);
    assert IsStorable(m);
  }
}
