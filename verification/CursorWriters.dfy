/**
 The two writers of a chat's cursor outside the worker: the fetch trigger of the REST API
 (src/api.rs, `handle_history_fetch_trigger`) and the seeding from a chat-state sync
 (src/bridge.rs, `seed_cursor_if_no_anchor`).
 */
module CursorWriters {
  import opened Wrappers
  import opened History
  import opened BackfillStore
  import opened Backfill

  /** The cursor a trigger leaves: re-seeded from the oldest stored message when unusable. */
  function Triggered(db: Db, chat: string): Db {
    var c := GetCursor(db, chat);
    if c.Some? && c.value.exhausted then db
    else
      match ResolveAnchor(db, chat)
      case OldestStored(a) => Upserted(db, chat, a, if c.Some? then c.value.moreRemain else true, false, None)
      case _ => db
  }

  /** The cursor a chat-state sync leaves: written only when the chat has no way to start. */
  function Seeded(db: Db, chat: string, a: Anchor): Db {
    var c := GetCursor(db, chat);
    if c.Some? && c.value.exhausted then db
    else if !ResolveAnchor(db, chat).Unanchored? then db
    else Upserted(db, chat, a, true, false, None)
  }

  datatype TriggerReply = AlreadyExhausted | NoAnchorReply | Resumes(anchorTsMs: i64)

  /** The cursor part of the trigger, up to the enqueue; `Resumes` goes on to enqueue the job. */
  method TriggerFetch(store: Store, chat: string) returns (reply: TriggerReply)
    modifies store
    ensures store.Tables() == Triggered(old(store.Tables()), chat)
    ensures reply.AlreadyExhausted? <==> chat in old(store.cursors) && old(store.cursors)[chat].exhausted
    ensures reply.NoAnchorReply? <==> !reply.AlreadyExhausted? && ResolveAnchor(old(store.Tables()), chat).Unanchored?
    ensures reply.Resumes? ==> reply.anchorTsMs == ResolveAnchor(old(store.Tables()), chat).anchor.tsMs
  {
    var db := Db(store.rows, store.cursors, store.jobs);
    var c := GetCursor(db, chat);
    if c.Some? && c.value.exhausted {
      return AlreadyExhausted;
    }
    match ResolveAnchor(db, chat) {
      case Unanchored => return NoAnchorReply;
      case FromCursor(a) => return Resumes(a.tsMs);
      case OldestStored(a) =>
        store.UpsertCursor(chat, a, if c.Some? then c.value.moreRemain else true, false, None);
        return Resumes(a.tsMs);
    }
  }

  method SeedCursorIfNoAnchor(store: Store, chat: string, a: Anchor) returns (wrote: bool)
    modifies store
    ensures store.Tables() == Seeded(old(store.Tables()), chat, a)
    ensures wrote <==> ResolveAnchor(old(store.Tables()), chat).Unanchored?
                       && !(chat in old(store.cursors) && old(store.cursors)[chat].exhausted)
  {
    var db := Db(store.rows, store.cursors, store.jobs);
    var c := GetCursor(db, chat);
    if c.Some? && c.value.exhausted {
      return false;
    }
    if !ResolveAnchor(db, chat).Unanchored? {
      return false;
    }
    store.UpsertCursor(chat, a, true, false, None);
    wrote := true;
  }
}
