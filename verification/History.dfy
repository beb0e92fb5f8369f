/**
 History messages as the phone sends them, the rows they are stored as, and the anchor of a
 backward fetch (src/backfill.rs, src/storage.rs).
 */
module History {
  import opened Wrappers
  import opened KeyOrder
  import opened Content

  const I64_MAX: int := 0x7FFF_FFFF_FFFF_FFFF
  const I64_MIN: int := -0x8000_0000_0000_0000
  const U64_SIZE: int := 0x1_0000_0000_0000_0000
  const U32_SIZE: int := 0x1_0000_0000
  const U32_MAX: int := 0xFFFF_FFFF

  type u64 = x: int | 0 <= x < U64_SIZE
  type i32 = x: int | -0x8000_0000 <= x <= 0x7FFF_FFFF
  type i64 = x: int | I64_MIN <= x <= I64_MAX
  type u32 = x: int | 0 <= x <= U32_MAX

  /** The wrapping conversion `as i64` of an unsigned 64-bit number. */
  function AsI64(x: u64): i64 {
    if x <= I64_MAX then x else x - U64_SIZE
  }

  /** The truncating conversion `as u32` of a length or counter. */
  function AsU32(n: nat): u32 {
    n % U32_SIZE
  }

  function SaturatingMul1000(x: i64): i64 {
    if x * 1000 > I64_MAX then I64_MAX else if x * 1000 < I64_MIN then I64_MIN else x * 1000
  }

  function SaturatingAdd(a: u32, b: u32): u32 {
    if a + b > U32_MAX then U32_MAX else a + b
  }

  /** Seconds become milliseconds: exactly where they fit, else the nearest bound. */
  lemma MillisecondsAreNearest(x: i64, other: i64)
    ensures Distance(SaturatingMul1000(x), 1000 * x) <= Distance(other, 1000 * x)
    ensures I64_MIN <= 1000 * x <= I64_MAX ==> SaturatingMul1000(x) == 1000 * x
  {
  }

  function Distance(a: int, b: int): nat { if a < b then b - a else a - b }

  /** Counts keep their low 32 bits, and times their low 64 bits. */
  lemma NarrowingWraps(n: nat, x: u64)
    ensures exists k :: AsU32(n) + k * U32_SIZE == n
    ensures AsI64(x) == x || AsI64(x) + U64_SIZE == x
  {
    assert AsU32(n) + (n / U32_SIZE) * U32_SIZE == n;
  }

  datatype MediaRef = MediaRef(fileLength: Option<i64>)

  /** A message payload: content the extractor handles, or anything else. */
  datatype Payload = Handled(content: InboundContent, mediaRef: Option<MediaRef>) | Unhandled

  /** `timestamp` is in seconds. */
  datatype WebMessageInfo =
    WebMessageInfo(payload: Option<Payload>, id: Option<string>, fromMe: Option<bool>, timestamp: Option<u64>)

  datatype HistoryBatch = HistoryBatch(messages: seq<WebMessageInfo>, moreRemain: bool)

  /** The oldest known message of a chat; a fetch asks for what is older. */
  datatype Anchor = Anchor(id: string, fromMe: bool, tsMs: i64)

  function AnchorKey(a: Anchor): Key { Key(a.tsMs, a.id) }

  /** The anchor at one message; `None` without an id or a timestamp. */
  function MessageAnchor(m: WebMessageInfo): Option<Anchor> {
    if m.timestamp.Some? && m.id.Some? then
      Some(Anchor(m.id.value, m.fromMe.GetOr(false), SaturatingMul1000(AsI64(m.timestamp.value))))
    else None
  }

  /** The anchor at the oldest message of a batch; of equal keys the first one wins. */
  function OldestAnchor(messages: seq<WebMessageInfo>): Option<Anchor> {
    if messages == [] then None
    else
      var first, rest := MessageAnchor(messages[0]), OldestAnchor(messages[1..]);
      if first.None? then rest
      else if rest.None? then first
      else if Older(AnchorKey(rest.value), AnchorKey(first.value)) then rest
      else first
  }

  ghost predicate NoneOlder(messages: seq<WebMessageInfo>, a: Anchor) {
    forall m :: m in messages && MessageAnchor(m).Some? ==> !Older(AnchorKey(MessageAnchor(m).value), AnchorKey(a))
  }

  /** The anchor of a batch is that of one of its messages, and none of them is older; there is
      none exactly when no message has both an id and a timestamp. */
  lemma {:induction false} OldestIsLeast(messages: seq<WebMessageInfo>)
    ensures var r := OldestAnchor(messages);
            && (r.Some? <==> exists m :: m in messages && MessageAnchor(m).Some?)
            && (r.Some? ==> NoneOlder(messages, r.value) && exists m :: m in messages && MessageAnchor(m) == r)
  {
    if messages == [] {
    } else {
      OldestIsLeast(messages[1..]);
      var first, rest := MessageAnchor(messages[0]), OldestAnchor(messages[1..]);
      assert messages[0] in messages && forall m :: m in messages[1..] ==> m in messages;
      assert forall m :: m in messages <==> m == messages[0] || m in messages[1..];
      if first.Some? {
        OlderIsStrictTotal(AnchorKey(first.value), AnchorKey(first.value));
        if rest.Some? {
          OlderIsStrictTotal(AnchorKey(rest.value), AnchorKey(first.value));
          if !Older(AnchorKey(rest.value), AnchorKey(first.value)) {
            NoneOlderThanNewer(messages[1..], rest.value, first.value);
          }
        }
      }
    }
  }

  lemma NoneOlderThanNewer(messages: seq<WebMessageInfo>, oldest: Anchor, a: Anchor)
    requires NoneOlder(messages, oldest) && !Older(AnchorKey(oldest), AnchorKey(a))
    ensures NoneOlder(messages, a)
  {
    forall m | m in messages && MessageAnchor(m).Some?
      ensures !Older(AnchorKey(MessageAnchor(m).value), AnchorKey(a))
    {
      var k := AnchorKey(MessageAnchor(m).value);
      OlderIsStrictTotal(AnchorKey(a), AnchorKey(oldest));
      if Older(k, AnchorKey(a)) && Older(AnchorKey(a), AnchorKey(oldest)) {
        OlderTransitive(k, AnchorKey(a), AnchorKey(oldest));
      }
    }
  }

  /** A row of the `messages` table; `id` is unique in the table. */
  datatype MessageRow =
    MessageRow(chat: string, id: string, fromMe: bool, tsSecs: i64,
               kind: string, body: Option<string>, source: string, pending: bool)

  predicate IsStored(rows: seq<MessageRow>, id: string) {
    exists r :: r in rows && r.id == id
  }

  /** `INSERT OR IGNORE`: a row whose id is already stored changes nothing. */
  function InsertIfNew(rows: seq<MessageRow>, row: MessageRow): seq<MessageRow> {
    if IsStored(rows, row.id) then rows else rows + [row]
  }

  /** The first offered row of its id, an id not stored before. */
  predicate FirstNew(rows: seq<MessageRow>, more: seq<MessageRow>, k: nat) {
    k < |more| && !IsStored(rows, more[k].id) && forall j :: 0 <= j < k ==> more[j].id != more[k].id
  }

  lemma FirstNewShifts(rows: seq<MessageRow>, more: seq<MessageRow>, k: nat)
    requires more != [] && k > 0
    ensures FirstNew(rows, more, k) <==> FirstNew(InsertIfNew(rows, more[0]), more[1..], k - 1)
  {
    var next := InsertIfNew(rows, more[0]);
    if k < |more| {
      assert more[1..][k - 1] == more[k];
      InsertIfNewIds(rows, more[0], more[k].id);
      if FirstNew(next, more[1..], k - 1) {
        forall j | 0 <= j < k ensures more[j].id != more[k].id {
          assert j > 0 ==> more[1..][j - 1] == more[j];
        }
      }
    }
  }

  lemma InsertIfNewIds(rows: seq<MessageRow>, row: MessageRow, id: string)
    ensures IsStored(InsertIfNew(rows, row), id) <==> IsStored(rows, id) || row.id == id
  {
    var next := InsertIfNew(rows, row);
    if IsStored(rows, id) {
      var x :| x in rows && x.id == id;
      assert x in next;
    } else if row.id == id {
      assert row in next;
    }
  }

  /** Exactly these rows are in the table afterwards: the old ones, and of the offered ones the
      first of each id that was not stored. */
  lemma {:induction false} InsertAllExactly(rows: seq<MessageRow>, more: seq<MessageRow>, row: MessageRow)
    ensures row in InsertAll(rows, more) <==> row in rows || exists k: nat :: FirstNew(rows, more, k) && more[k] == row
    decreases |more|
  {
    if more == [] {
    } else {
      var next := InsertIfNew(rows, more[0]);
      InsertAllExactly(next, more[1..], row);
      assert row in next <==> row in rows || (FirstNew(rows, more, 0) && more[0] == row);
      if k: nat :| FirstNew(rows, more, k) && more[k] == row {
        if k > 0 {
          FirstNewShifts(rows, more, k);
          assert more[1..][k - 1] == row;
        }
      }
      if k: nat :| FirstNew(next, more[1..], k) && more[1..][k] == row {
        FirstNewShifts(rows, more, k + 1);
        assert FirstNew(rows, more, k + 1) && more[k + 1] == row;
      }
    }
  }

  function InsertAll(rows: seq<MessageRow>, more: seq<MessageRow>): (r: seq<MessageRow>)
    ensures rows <= r
    ensures forall id :: IsStored(r, id) <==> IsStored(rows, id) || IsStored(more, id)
    decreases |more|
  {
    if more == [] then rows
    else
      var next := InsertIfNew(rows, more[0]);
      assert forall x :: x in more <==> x == more[0] || x in more[1..];
      assert forall id :: IsStored(next, id) <==> IsStored(rows, id) || more[0].id == id by {
        forall id ensures IsStored(next, id) <==> IsStored(rows, id) || more[0].id == id {
          if IsStored(rows, id) {
            var x :| x in rows && x.id == id;
            assert x in next;
          }
          if more[0].id == id && !IsStored(rows, id) {
            assert more[0] in next;
          }
        }
      }
      InsertAll(next, more[1..])
  }
}
