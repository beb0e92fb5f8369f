/**
 Reading an HTTP/1.1 request from a byte stream (src/api.rs, `read_request_head` and
 `read_request_body`; RFC 9112 sections 2.1, 6.2 and 6.3). The stream is the sequence of its
 non-empty reads; what is read never depends on where the stream is cut, up to the size limit.
 */
module RequestReader {
  import opened Wrappers
  import opened Bytes
  import opened PercentCodec

  const HEAD_LIMIT: nat := 128 * 1024
  const USIZE_MAX: nat := 0xFFFF_FFFF_FFFF_FFFF

  const CRLF: seq<byte> := [CR, LF]

  // ----- finding the end of the head -----

  predicate BlankAt(s: seq<byte>, i: nat) {
    i + 4 <= |s| && s[i] == CR && s[i + 1] == LF && s[i + 2] == CR && s[i + 3] == LF
  }

  /** The position of the first blank line. */
  function FindBlank(s: seq<byte>): Option<nat> {
    if |s| < 4 then None
    else if BlankAt(s, 0) then Some(0)
    else
      match FindBlank(s[1..])
      case Some(k) => Some(k + 1)
      case None => None
  }

  /** It is a blank line, and the first one. */
  lemma {:induction false} FindBlankIsFirst(s: seq<byte>)
    ensures FindBlank(s).Some? ==>
              BlankAt(s, FindBlank(s).value) && forall i: nat :: i < FindBlank(s).value ==> !BlankAt(s, i)
    ensures FindBlank(s).None? ==> forall i: nat :: !BlankAt(s, i)
  {
    if |s| < 4 || BlankAt(s, 0) {
    } else {
      FindBlankIsFirst(s[1..]);
      assert forall i: nat :: BlankAt(s[1..], i) <==> BlankAt(s, i + 1);
      forall i: nat | i > 0 ensures BlankAt(s, i) <==> BlankAt(s[1..], i - 1) {
      }
    }
  }

  /** A prefix has the blank line exactly when it reaches past its end. */
  lemma FindBlankInPrefix(s: seq<byte>, n: nat)
    requires n <= |s|
    ensures FindBlank(s[..n]) == if FindBlank(s).Some? && FindBlank(s).value + 4 <= n then FindBlank(s) else None
  {
    FindBlankIsFirst(s);
    FindBlankIsFirst(s[..n]);
    assert forall i: nat :: BlankAt(s[..n], i) <==> BlankAt(s, i) && i + 4 <= n;
  }

  // ----- the stream -----

  function Flatten(chunks: seq<seq<byte>>): seq<byte> {
    if chunks == [] then [] else chunks[0] + Flatten(chunks[1..])
  }

  /** A stream hands out its reads one at a time; after them, end of stream. */
  class Stream {
    var chunks: seq<seq<byte>>

    constructor (chunks: seq<seq<byte>>)
      ensures this.chunks == chunks
    {
      this.chunks := chunks;
    }

    method Read() returns (chunk: Option<seq<byte>>)
      modifies this
      ensures old(chunks) == [] ==> chunk.None? && chunks == []
      ensures old(chunks) != [] ==> chunk == Some(old(chunks)[0]) && chunks == old(chunks)[1..]
    {
      if chunks == [] {
        return None;
      }
      chunk := Some(chunks[0]);
      chunks := chunks[1..];
    }
  }

  // ----- the head -----

  datatype Header = Header(name: seq<byte>, value: seq<byte>)

  datatype Head = Head(verb: seq<byte>, target: Target, headers: seq<Header>, contentLength: nat)

  function LowerByte(b: byte): byte { if 65 <= b <= 90 then b + 32 else b }

  predicate EqualIgnoringCase(a: seq<byte>, b: seq<byte>) {
    |a| == |b| && forall i :: 0 <= i < |a| ==> LowerByte(a[i]) == LowerByte(b[i])
  }

  const CONTENT_LENGTH: seq<byte> := Ascii("content-length")

  /** The header lines, in order; a line without a colon is skipped. */
  function ParseHeaders(lines: seq<seq<byte>>): seq<Header> {
    if lines == [] then []
    else
      var rest := ParseHeaders(lines[1..]);
      match SplitOnce(lines[0], COLON)
      case Some(h) => [Header(h.before, Trim(h.after))] + rest
      case None => rest
  }

  /** The last `Content-Length`; an unreadable one counts as 0, as does its absence. */
  function ContentLength(headers: seq<Header>): nat {
    if headers == [] then 0
    else
      var last := headers[|headers| - 1];
      if EqualIgnoringCase(last.name, CONTENT_LENGTH) then ParseUnsigned(last.value, USIZE_MAX).GetOr(0)
      else ContentLength(headers[..|headers| - 1])
  }

  /** Well-formed UTF-8: no stray or missing continuation bytes, no overlong or surrogate forms. */
  predicate ValidUtf8(s: seq<byte>) {
    s == [] ||
    (s[0] < 0x80 && ValidUtf8(s[1..])) ||
    (|s| >= 2 && 0xC2 <= s[0] <= 0xDF && Continues(s[1]) && ValidUtf8(s[2..])) ||
    (|s| >= 3 && 0xE0 <= s[0] <= 0xEF && Continues(s[1]) && Continues(s[2])
     && (s[0] == 0xE0 ==> s[1] >= 0xA0) && (s[0] == 0xED ==> s[1] < 0xA0) && ValidUtf8(s[3..])) ||
    (|s| >= 4 && 0xF0 <= s[0] <= 0xF4 && Continues(s[1]) && Continues(s[2]) && Continues(s[3])
     && (s[0] == 0xF0 ==> s[1] >= 0x90) && (s[0] == 0xF4 ==> s[1] < 0x90) && ValidUtf8(s[4..]))
  }

  predicate Continues(b: byte) { 0x80 <= b <= 0xBF }

  /** The head of a request, or `None` when it is not text, or its first line has no two words. */
  function ParseHead(text: seq<byte>): Option<Head> {
    var lines := Lines(text);
    if !ValidUtf8(text) || lines == [] then None
    else
      var words := Words(lines[0]);
      if |words| < 2 then None
      else
        var headers := ParseHeaders(lines[1..]);
        Some(Head(words[0], PercentCodec.ParseTarget(words[1]), headers, ContentLength(headers)))
  }

  datatype ReadHead = ReadHead(head: Head, leftover: seq<byte>)

  /** The head parsed from the bytes before a blank line, and the bytes after it. */
  function HeadAt(buf: seq<byte>, blank: nat): Option<ReadHead>
    requires blank + 4 <= |buf|
  {
    match ParseHead(buf[..blank])
    case Some(head) => Some(ReadHead(head, buf[blank + 4..]))
    case None => None
  }

  /** Some read ends beyond the size limit and before the end of the blank line. */
  ghost predicate CutTooLate(buf: seq<byte>, chunks: seq<seq<byte>>, end: nat) {
    exists k :: 0 < k <= |chunks| && HEAD_LIMIT < |buf| + |Flatten(chunks[..k])| < end
  }

  /** How reading a head ended, and which reads it left. */
  datatype Outcome = Outcome(result: Option<ReadHead>, rest: seq<seq<byte>>)

  /** The reading loop: take reads until a blank line, the size limit, or the end of the stream. */
  function ReadLoop(buf: seq<byte>, chunks: seq<seq<byte>>): Outcome
    decreases |chunks|
  {
    if chunks == [] then Outcome(None, [])
    else
      var more := buf + chunks[0];
      match FindBlank(more)
      case Some(blank) =>
        FindBlankIsFirst(more);
        Outcome(HeadAt(more, blank), chunks[1..])
      case None => if |more| > HEAD_LIMIT then Outcome(None, chunks[1..]) else ReadLoop(more, chunks[1..])
  }

  method ReadRequestHead(stream: Stream) returns (result: Option<ReadHead>)
    modifies stream
    ensures Outcome(result, stream.chunks) == ReadLoop([], old(stream.chunks))
  {
    var buf := [];
    while true
      invariant ReadLoop(buf, stream.chunks) == ReadLoop([], old(stream.chunks))
      decreases |stream.chunks|
    {
      var chunk := stream.Read();
      if chunk.None? {
        return None;
      }
      buf := buf + chunk.value;
      var blank := FindBlank(buf);
      if blank.Some? {
        FindBlankIsFirst(buf);
        return HeadAt(buf, blank.value);
      }
      if |buf| > HEAD_LIMIT {
        return None;
      }
    }
  }

  // ----- the body -----

  /** What the stream holds after the head, cut to the declared length; `None` when that is over
      the limit or the stream is short. */
  function Body(bytes: seq<byte>, length: nat, limit: nat): Option<seq<byte>> {
    if length > limit || |bytes| < length then None else Some(bytes[..length])
  }

  method ReadRequestBody(stream: Stream, leftover: seq<byte>, length: nat, limit: nat) returns (body: Option<seq<byte>>)
    modifies stream
    ensures body == Body(leftover + Flatten(old(stream.chunks)), length, limit)
  {
    if length > limit {
      return None;
    }
    if length == 0 {
      return Some([]);
    }
    var buf := leftover;
    while |buf| < length
      invariant buf + Flatten(stream.chunks) == leftover + Flatten(old(stream.chunks))
      decreases |stream.chunks|
    {
      var chunk := stream.Read();
      if chunk.None? {
        break;
      }
      assert buf + (chunk.value + Flatten(stream.chunks)) == buf + chunk.value + Flatten(stream.chunks);
      buf := buf + chunk.value;
    }
    if |buf| < length {
      assert Flatten(stream.chunks) == [];
      assert buf == leftover + Flatten(old(stream.chunks));
      return None;
    }
    assert (buf + Flatten(stream.chunks))[..length] == buf[..length];
    return Some(buf[..length]);
  }

  // ----- independence of the chunks -----

  /** Without a late cut now there is none later. */
  lemma NotCutLater(buf: seq<byte>, chunks: seq<seq<byte>>, end: nat)
    requires chunks != [] && !CutTooLate(buf, chunks, end)
    ensures !CutTooLate(buf + chunks[0], chunks[1..], end)
    ensures !(HEAD_LIMIT < |buf + chunks[0]| < end)
  {
    assert chunks[..1] == [chunks[0]] && Flatten([chunks[0]]) == chunks[0] + Flatten([]);
    forall k | 0 < k <= |chunks[1..]|
      ensures !(HEAD_LIMIT < |buf + chunks[0]| + |Flatten(chunks[1..][..k])| < end)
    {
      assert chunks[..k + 1][1..] == chunks[1..][..k];
      assert |Flatten(chunks[..k + 1])| == |chunks[0]| + |Flatten(chunks[1..][..k])|;
    }
  }

  /** A late cut is either at the first read or later. */
  lemma CutNowOrLater(buf: seq<byte>, chunks: seq<seq<byte>>, end: nat)
    requires chunks != [] && CutTooLate(buf, chunks, end) && |buf + chunks[0]| <= HEAD_LIMIT
    ensures CutTooLate(buf + chunks[0], chunks[1..], end)
  {
    var k :| 0 < k <= |chunks| && HEAD_LIMIT < |buf| + |Flatten(chunks[..k])| < end;
    assert chunks[..k][1..] == chunks[1..][..k - 1];
    assert |Flatten(chunks[..k])| == |chunks[0]| + |Flatten(chunks[1..][..k - 1])|;
  }

  /** What reading from `buf` on amounts to, in terms of the whole byte string alone. */
  ghost predicate ReadsAll(all: seq<byte>, buf: seq<byte>, chunks: seq<seq<byte>>) {
    var found := FindBlank(all);
    var out := ReadLoop(buf, chunks);
    if found.Some? && !CutTooLate(buf, chunks, found.value + 4)
    then found.value + 4 <= |all| && TakesHead(all, found.value, out)
    else out.result.None?
  }

  /** The head before the blank line is parsed, and the bytes behind it are left. */
  ghost predicate TakesHead(all: seq<byte>, blank: nat, out: Outcome)
    requires blank + 4 <= |all|
  {
    var head := ParseHead(all[..blank]);
    && (out.result.Some? <==> head.Some?)
    && (out.result.Some? ==>
          Some(out.result.value.head) == head && out.result.value.leftover + Flatten(out.rest) == all[blank + 4..])
  }

  ghost predicate ReadsWhole(buf: seq<byte>, chunks: seq<seq<byte>>) {
    ReadsAll(buf + Flatten(chunks), buf, chunks)
  }

  lemma {:induction false} LoopReadsWhole(buf: seq<byte>, chunks: seq<seq<byte>>)
    requires FindBlank(buf).None?
    ensures ReadsWhole(buf, chunks)
    decreases |chunks|
  {
    var all := buf + Flatten(chunks);
    if chunks == [] {
      assert all == buf;
      return;
    }
    var more := buf + chunks[0];
    assert all == more + Flatten(chunks[1..]);
    assert all[..|more|] == more;
    FindBlankIsFirst(all);
    FindBlankInPrefix(all, |more|);
    if FindBlank(more).Some? {
      var blank := FindBlank(more).value;
      NoLateCutBefore(buf, chunks, blank + 4);
      assert more[..blank] == all[..blank];
      assert more[blank + 4..] + Flatten(chunks[1..]) == all[blank + 4..];
    } else if |more| <= HEAD_LIMIT {
      LoopReadsWhole(more, chunks[1..]);
      if FindBlank(all).Some? {
        var end := FindBlank(all).value + 4;
        if CutTooLate(buf, chunks, end) {
          CutNowOrLater(buf, chunks, end);
        } else {
          NotCutLater(buf, chunks, end);
        }
      }
    } else if FindBlank(all).Some? {
      var end := FindBlank(all).value + 4;
      if !CutTooLate(buf, chunks, end) {
        NotCutLater(buf, chunks, end);
      }
    }
  }

  /** A blank line that the first read completes is not cut too late. */
  lemma NoLateCutBefore(buf: seq<byte>, chunks: seq<seq<byte>>, end: nat)
    requires chunks != [] && end <= |buf + chunks[0]|
    ensures !CutTooLate(buf, chunks, end)
  {
    forall k | 0 < k <= |chunks| ensures |buf| + |Flatten(chunks[..k])| >= end {
      assert chunks[..k] == [chunks[0]] + chunks[..k][1..];
    }
  }

  /**
   The head that is read, and the bytes left for the body, depend on the byte stream alone,
   unless a read happens to end beyond 128 KiB and inside the head: then, and when there is no
   blank line at all, nothing is read.
   */
  lemma HeadDependsOnBytes(chunks: seq<seq<byte>>)
    ensures ReadsWhole([], chunks)
  {
    LoopReadsWhole([], chunks);
  }

  /** A head that ends within the limit is never cut too late. */
  lemma ShortHeadNeverCut(chunks: seq<seq<byte>>, end: nat)
    requires end <= HEAD_LIMIT
    ensures !CutTooLate([], chunks, end)
  {
  }

  /** A head that ends within the limit is read, with the bytes behind it, however it is cut. */
  lemma ShortHeadIsRead(chunks: seq<seq<byte>>, blank: nat)
    requires FindBlank(Flatten(chunks)) == Some(blank) && blank + 4 <= 128 * 1024
    ensures blank + 4 <= |Flatten(chunks)| && TakesHead(Flatten(chunks), blank, ReadLoop([], chunks))
  {
    var all := Flatten(chunks);
    ShortHeadNeverCut(chunks, blank + 4);
    HeadDependsOnBytes(chunks);
    assert [] + all == all;
    assert ReadsAll(all, [], chunks);
  }

  /**
   A whole request whose head ends within 128 KiB: any two ways of cutting the same bytes into
   reads give the same head, and the same bytes for the body.
   */
  lemma ChunkingIrrelevant(chunks: seq<seq<byte>>, chunks': seq<seq<byte>>)
    requires Flatten(chunks) == Flatten(chunks')
    requires FindBlank(Flatten(chunks)).Some? && FindBlank(Flatten(chunks)).value + 4 <= 128 * 1024
    ensures var out, out' := ReadLoop([], chunks), ReadLoop([], chunks');
            && (out.result.Some? <==> out'.result.Some?)
            && (out.result.Some? ==>
                  && out.result.value.head == out'.result.value.head
                  && out.result.value.leftover + Flatten(out.rest) == out'.result.value.leftover + Flatten(out'.rest))
  {
    ShortHeadIsRead(chunks, FindBlank(Flatten(chunks)).value);
    ShortHeadIsRead(chunks', FindBlank(Flatten(chunks)).value);
  }
}
