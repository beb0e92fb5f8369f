/**
 Which requests the server takes (src/api.rs, `read_request_head` and `read_request_body`): what a
 head must hold, which header gives the body's length, and which bodies are refused.
 */
module RequestFields {
  import opened Wrappers
  import opened Bytes
  import opened PercentCodec
  import opened RequestReader
  import opened TextPieces
  import opened Utf8

  // ----- the head -----

  /** A head is read exactly when it is text whose first line holds at least two words. */
  lemma HeadReadExactly(text: seq<byte>)
    ensures ParseHead(text).Some?
            <==> (exists cs :: EncodeText(cs) == text) && Lines(text) != [] && |Words(Lines(text)[0])| >= 2
  {
    ValidExactly(text);
  }

  /** Verb and target are the first two words of the first line, whatever white space is between them
      and whatever words follow. */
  lemma VerbAndTarget(text: seq<byte>, verb: seq<byte>, gap: byte, target: seq<byte>, end: byte, more: seq<byte>)
    requires IsWord(verb) && IsWord(target) && IsSpace(gap) && IsSpace(end)
    requires ValidUtf8(text) && Lines(text) != []
    requires Lines(text)[0] == verb + [gap] + target || Lines(text)[0] == verb + [gap] + (target + [end] + more)
    ensures ParseHead(text).Some?
    ensures ParseHead(text).value.verb == verb && ParseHead(text).value.target == PercentCodec.ParseTarget(target)
  {
    WordIsTaken(verb, gap, target);
    WordIsTaken(verb, gap, target + [end] + more);
    WordIsTaken(target, end, more);
  }

  /** A target is its path and, behind the first question mark, the query's pairs; without one there is
      no query. */
  lemma TargetSplits(path: seq<byte>, query: seq<byte>)
    requires QUESTION !in path
    ensures PercentCodec.ParseTarget(path) == Target(path, [])
    ensures PercentCodec.ParseTarget(path + [QUESTION] + query) == Target(path, ParsePairs(Split(query, AMP)))
  {
    SplitOnceJoined(path, QUESTION, query);
  }

  /** A pair is its key and, behind the first equals sign, its value, both decoded; without one the
      value is empty. */
  lemma PairSplits(key: seq<byte>, value: seq<byte>)
    requires EQUALS !in key
    ensures ParsePair(key) == Pair(Decode(key), [])
    ensures ParsePair(key + [EQUALS] + value) == Pair(Decode(key), Decode(value))
  {
    SplitOnceJoined(key, EQUALS, value);
  }

  /** A header line without a colon is skipped. */
  lemma LineWithoutColon(line: seq<byte>, lines: seq<seq<byte>>)
    requires COLON !in line
    ensures ParseHeaders([line] + lines) == ParseHeaders(lines)
  {
    SplitOnceJoined(line, COLON, []);
    assert ([line] + lines)[1..] == lines;
  }

  // ----- how far the head is read -----

  /** These bytes settle the head: they hold its end, or are too many. */
  predicate Settles(bytes: seq<byte>) {
    FindBlank(bytes).Some? || |bytes| > 128 * 1024
  }

  lemma FlattenFront(chunks: seq<seq<byte>>, j: nat)
    requires 0 < j <= |chunks|
    ensures Flatten(chunks[..j]) == chunks[0] + Flatten(chunks[1..][..j - 1])
  {
    assert chunks[..j][1..] == chunks[1..][..j - 1];
  }

  /** The reader takes reads until they settle the head, and leaves the others alone. */
  lemma {:induction false} ReadsNoFurther(buf: seq<byte>, chunks: seq<seq<byte>>) returns (k: nat)
    ensures k <= |chunks| && ReadLoop(buf, chunks).rest == chunks[k..]
    ensures forall j :: 0 < j < k ==> !Settles(buf + Flatten(chunks[..j]))
    ensures k < |chunks| ==> Settles(buf + Flatten(chunks[..k])) && k > 0
    decreases |chunks|
  {
    if chunks == [] {
      k := 0;
    } else {
      var more, rest := buf + chunks[0], chunks[1..];
      FlattenFront(chunks, 1);
      assert buf + Flatten(chunks[..1]) == more;
      if Settles(more) {
        k := 1;
      } else {
        k := ReadsNoFurther(more, rest);
        forall j | 0 < j <= |rest| ensures buf + Flatten(chunks[..j + 1]) == more + Flatten(rest[..j]) {
          FlattenFront(chunks, j + 1);
        }
        forall j | 1 < j < k + 1 ensures !Settles(buf + Flatten(chunks[..j])) {
          assert !Settles(more + Flatten(rest[..j - 1]));
        }
        k := k + 1;
      }
    }
  }

  // ----- the content length -----

  /** The same letter in the other case. */
  predicate OtherCase(a: byte, b: byte) {
    (65 <= a <= 90 && b == a + 32) || (65 <= b <= 90 && a == b + 32)
  }

  /** Two names are the same when they differ at most in the case of letters. */
  lemma SameNameExactly(a: seq<byte>, b: seq<byte>)
    ensures EqualIgnoringCase(a, b)
            <==> |a| == |b| && forall i :: 0 <= i < |a| ==> a[i] == b[i] || OtherCase(a[i], b[i])
  {
    if |a| == |b| {
      forall i | 0 <= i < |a|
        ensures LowerByte(a[i]) == LowerByte(b[i]) <==> a[i] == b[i] || OtherCase(a[i], b[i])
      {
      }
    }
  }

  predicate NamesLength(h: Header) { EqualIgnoringCase(h.name, CONTENT_LENGTH) }

  /** No header from `k` on names a content length. */
  predicate NoneFrom(headers: seq<Header>, k: nat) {
    forall i :: k <= i < |headers| ==> !NamesLength(headers[i])
  }

  /** Without a header that names it, the length is 0. */
  lemma {:induction false} NoLengthNamed(headers: seq<Header>)
    requires NoneFrom(headers, 0)
    ensures ContentLength(headers) == 0
  {
    if headers == [] {
    } else {
      var n := |headers| - 1;
      assert !NamesLength(headers[n]);
      NoLengthNamed(headers[..n]);
    }
  }

  /** The last header that names a content length gives it, or 0 when it is no number. */
  lemma {:induction false} LastLengthCounts(headers: seq<Header>, k: nat)
    requires k < |headers| && NamesLength(headers[k]) && NoneFrom(headers, k + 1)
    ensures ContentLength(headers) == ParseUnsigned(headers[k].value, USIZE_MAX).GetOr(0)
  {
    var n := |headers| - 1;
    if k == n {
    } else {
      assert !NamesLength(headers[n]);
      LastLengthCounts(headers[..n], k);
    }
  }

  /** A length that is written as a number is that number, and anything else counts as none. */
  lemma LengthOfHeader(headers: seq<Header>, k: nat)
    requires k < |headers| && NamesLength(headers[k]) && NoneFrom(headers, k + 1)
    ensures forall n: nat :: IsNumber(headers[k].value, n) && n <= USIZE_MAX ==> ContentLength(headers) == n
    ensures (forall n: nat :: n <= USIZE_MAX ==> !IsNumber(headers[k].value, n)) ==> ContentLength(headers) == 0
  {
    var value := headers[k].value;
    LastLengthCounts(headers, k);
    forall n: nat ensures ParseUnsigned(value, USIZE_MAX) == Some(n) <==> IsNumber(value, n) && n <= USIZE_MAX {
      NumbersReadExactly(value, USIZE_MAX, n);
    }
  }

  // ----- the body -----

  /** A body is taken exactly when its declared length is within the limit and that many bytes come;
      it is their first bytes, however many come behind. */
  lemma BodyTakenExactly(body: seq<byte>, length: nat, limit: nat, bytes: seq<byte>)
    ensures Body(bytes, length, limit) == Some(body)
            <==> |body| == length <= limit && exists rest :: bytes == body + rest
    ensures Body(bytes, length, limit).None? <==> limit < length || |bytes| < length
  {
    if |body| == length <= limit {
      if rest :| bytes == body + rest {
        assert bytes[..length] == body;
      }
      if Body(bytes, length, limit) == Some(body) {
        assert bytes == body + bytes[length..];
      }
    }
  }
}
