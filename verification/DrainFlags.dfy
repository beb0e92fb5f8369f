/**
 What a history chunk says about what remains (src/backfill.rs, `drain_history_sync`), and what
 becomes of a chunk that names no conversation asked for.
 */
module DrainFlags {
  import opened Wrappers
  import opened History
  import opened DrainConversations

  /** The conversation claims to be complete: by its transfer type, or else by the chunk's progress. */
  predicate Ended(c: Conversation, progress: Option<nat>) {
    match c.endType
    case Some(0) => false
    case Some(1) => true
    case Some(2) => false
    case Some(3) => true
    case _ => progress.Some? && progress.value >= 100
  }

  /** A batch says nothing remains exactly when every one of its conversations claims to be complete. */
  lemma NothingRemainsExactly(hs: HistorySync, skip: string -> bool, b: ConversationBatch)
    requires b in BatchesFor(hs, FirstIds(hs.conversations, skip))
    ensures !b.batch.moreRemain
            <==> forall c :: c in hs.conversations && c.id == b.id ==> Ended(c, hs.progress)
  {
    BatchesAreExactInOrder(hs, skip);
    assert ExactBatch(hs, b);
    forall c ensures c in Matched(hs.conversations, [b.id]) <==> c in hs.conversations && c.id == b.id {
      MatchedHas(hs.conversations, [b.id], c);
    }
    forall c: Conversation ensures ConversationMore(c, hs.progress) <==> !Ended(c, hs.progress) {
      TypeDecides(c, hs.progress);
    }
  }

  lemma TypeDecides(c: Conversation, progress: Option<nat>)
    ensures ConversationMore(c, progress) <==> !Ended(c, progress)
  {
  }

  /** The chunk has a conversation with one of the ids. */
  predicate Names(hs: HistorySync, ids: seq<string>) {
    exists c :: c in hs.conversations && c.id in ids
  }

  /**
   The batch for a fetch: of the conversations asked for; of the only conversation when none of them
   is there; of nothing, with the progress deciding what remains, when there are others instead.
   */
  lemma FetchGetsExactly(hs: HistorySync, ids: seq<string>)
    ensures var batch := Drained(hs, ids);
            if Names(hs, ids) then
              && batch.messages == Gather(Matched(hs.conversations, ids))
              && (!batch.moreRemain <==> forall c :: c in hs.conversations && c.id in ids ==> Ended(c, hs.progress))
            else if |hs.conversations| == 1 then
              && batch.messages == Present(hs.conversations[0].messages)
              && (!batch.moreRemain <==> Ended(hs.conversations[0], hs.progress))
            else
              && batch.messages == []
              && (!batch.moreRemain <==> hs.progress.Some? && hs.progress.value >= 100)
  {
    var matched := Matched(hs.conversations, ids);
    forall c ensures c in matched <==> c in hs.conversations && c.id in ids {
      MatchedHas(hs.conversations, ids, c);
    }
    assert matched != [] ==> matched[0] in matched;
    forall c: Conversation ensures ConversationMore(c, hs.progress) <==> !Ended(c, hs.progress) {
      TypeDecides(c, hs.progress);
    }
  }

  // ----- which messages are taken -----

  /** A message is present as often as the conversation has it. */
  lemma {:induction false} PresentExactly(messages: seq<Option<WebMessageInfo>>, m: WebMessageInfo)
    ensures multiset(Present(messages))[m] == multiset(messages)[Some(m)]
  {
    if messages == [] {
    } else {
      var n := |messages| - 1;
      PresentExactly(messages[..n], m);
      assert messages == messages[..n] + [messages[n]];
    }
  }

  /** A fetch can start from the message: it has an id, and its time, wrapped to a signed 64-bit
      number, is positive. */
  predicate CanAnchor(m: WebMessageInfo) {
    var a := MessageAnchor(m);
    a.Some? && a.value.id != "" && a.value.tsMs > 0
  }

  /** Of a batch's messages those are kept, as often as they come, that hold a payload and that a fetch
      can start from; no others are. */
  lemma {:induction false} RetainedExactly(messages: seq<WebMessageInfo>, m: WebMessageInfo)
    ensures multiset(Retain(messages))[m] == if m.payload.Some? && CanAnchor(m) then multiset(messages)[m] else 0
  {
    if messages == [] {
    } else {
      var n := |messages| - 1;
      RetainedExactly(messages[..n], m);
      assert messages == messages[..n] + [messages[n]];
      assert IsStorable(messages[n]) <==> messages[n].payload.Some? && CanAnchor(messages[n]);
    }
  }

  // ----- which chats get a batch -----

  lemma {:induction false} GatheredFrom(cs: seq<Conversation>, m: WebMessageInfo)
    ensures m in Gather(cs) <==> exists c :: c in cs && Some(m) in c.messages
  {
    if cs == [] {
    } else {
      var n := |cs| - 1;
      GatheredFrom(cs[..n], m);
      PresentExactly(cs[n].messages, m);
      assert cs == cs[..n] + [cs[n]] && cs[n] in cs;
      assert m in Present(cs[n].messages) <==> m in multiset(Present(cs[n].messages));
      assert Some(m) in cs[n].messages <==> Some(m) in multiset(cs[n].messages);
    }
  }

  lemma RetainedFrom(messages: seq<WebMessageInfo>, m: WebMessageInfo)
    ensures m in Retain(messages) <==> m in messages && m.payload.Some? && CanAnchor(m)
  {
    RetainedExactly(messages, m);
    assert m in Retain(messages) <==> m in multiset(Retain(messages));
    assert m in messages <==> m in multiset(messages);
  }

  lemma {:induction false} BatchOfId(hs: HistorySync, ids: seq<string>, id: string)
    requires id in ids && BatchFor(hs, id).messages != []
    ensures id in Ids(BatchesFor(hs, ids))
  {
    var n := |ids| - 1;
    var all := BatchesFor(hs, ids);
    if id == ids[n] {
      assert Ids(all)[|all| - 1] == id;
    } else {
      BatchOfId(hs, ids[..n], id);
      var k :| 0 <= k < |Ids(BatchesFor(hs, ids[..n]))| && Ids(BatchesFor(hs, ids[..n]))[k] == id;
      assert Ids(all)[k] == id;
    }
  }

  /** A conversation of this id holds a message that is worth a batch. */
  ghost predicate HasMessage(hs: HistorySync, id: string) {
    exists c, m :: c in hs.conversations && c.id == id && Some(m) in c.messages && m.payload.Some? && CanAnchor(m)
  }

  /** Exactly the chats get a batch that have a name, are not to be skipped, and have such a message. */
  lemma ChatsDrainedExactly(hs: HistorySync, skip: string -> bool, id: string)
    ensures id in Ids(BatchesFor(hs, FirstIds(hs.conversations, skip))) <==> id != "" && !skip(id) && HasMessage(hs, id)
  {
    var ids := FirstIds(hs.conversations, skip);
    var all := BatchesFor(hs, ids);
    if id in Ids(all) {
      var k :| 0 <= k < |all| && Ids(all)[k] == id;
      DrainedHasMessage(hs, skip, all[k]);
    }
    if id != "" && !skip(id) && HasMessage(hs, id) {
      FirstIdsKept(hs.conversations, skip, id);
      MessageMakesBatch(hs, id);
      BatchOfId(hs, ids, id);
    }
  }

  lemma DrainedHasMessage(hs: HistorySync, skip: string -> bool, b: ConversationBatch)
    requires b in BatchesFor(hs, FirstIds(hs.conversations, skip))
    ensures b.id != "" && !skip(b.id) && HasMessage(hs, b.id)
  {
    BatchesAreExactInOrder(hs, skip);
    assert ExactBatch(hs, b) && KeptId(b.id, skip);
    var own, m := Matched(hs.conversations, [b.id]), b.batch.messages[0];
    assert m in Retain(Gather(own));
    RetainedFrom(Gather(own), m);
    GatheredFrom(own, m);
    var c :| c in own && Some(m) in c.messages;
    MatchedHas(hs.conversations, [b.id], c);
  }

  lemma MessageMakesBatch(hs: HistorySync, id: string)
    requires HasMessage(hs, id)
    ensures BatchFor(hs, id).messages != []
  {
    var c, m :| c in hs.conversations && c.id == id && Some(m) in c.messages && m.payload.Some? && CanAnchor(m);
    var own := Matched(hs.conversations, [id]);
    MatchedHas(hs.conversations, [id], c);
    GatheredFrom(own, m);
    RetainedFrom(Gather(own), m);
  }
}
