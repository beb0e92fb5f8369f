/**
 The request the command-line client writes (src/api.rs, `cli_post`) read back by the server:
 whatever the network does to the stream, the server sees the client's target and body.
 */
module CliRequest {
  import opened Wrappers
  import opened Bytes
  import opened PercentCodec
  import opened RequestReader
  import opened HeaderBlock
  import opened ResponseCodec

  const POST: seq<byte> := Ascii("POST")
  const HOST_NAME: seq<byte> := Ascii("Host")
  const JSON_LINE: seq<byte> := Ascii("Content-Type: application/json")
  const AUTH_NAME: seq<byte> := Ascii("Authorization")
  const BEARER: seq<byte> := Ascii("Bearer ")

  /** `host` includes the port; `token` is the configured API token, if any. */
  datatype Post = Post(target: seq<byte>, host: seq<byte>, token: Option<seq<byte>>, body: seq<byte>)

  function AuthLines(p: Post): seq<seq<byte>> {
    match p.token
    case Some(t) => [HeaderLine(AUTH_NAME, BEARER + t)]
    case None => []
  }

  function RequestLine(p: Post): seq<byte> {
    POST + [SPACE] + (p.target + [SPACE] + VERSION)
  }

  function LengthLine(p: Post): seq<byte> { HeaderLine(LENGTH_NAME, Numeral(|p.body|)) }

  function PostLines(p: Post): seq<seq<byte>> {
    [RequestLine(p), HeaderLine(HOST_NAME, p.host), JSON_LINE, LengthLine(p)] + AuthLines(p) + [CLOSE_LINE]
  }

  function PostBytes(p: Post): seq<byte> {
    Ended(PostLines(p)) + CRLF + p.body
  }

  /** ASCII without CR and LF. */
  predicate IsField(s: seq<byte>) {
    forall i :: 0 <= i < |s| ==> s[i] < 128 && s[i] != CR && s[i] != LF
  }

  /** What the client's own settings give: a target without spaces, and one-line fields. */
  predicate Sendable(p: Post) {
    IsWord(p.target) && IsField(p.target) && IsField(p.host) && (p.token.Some? ==> IsField(p.token.value))
  }

  // ----- every line is one -----

  predicate FieldLine(l: seq<byte>) { l != [] && IsField(l) }

  lemma FieldLineIsLine(l: seq<byte>)
    requires FieldLine(l)
    ensures IsLine(l) && PairFree(l)
  {
  }

  lemma FieldsJoined(a: seq<byte>, sep: seq<byte>, b: seq<byte>)
    requires IsField(a) && IsField(sep) && IsField(b)
    ensures IsField(a + sep + b)
  {
  }

  lemma NumeralIsField(n: nat)
    ensures IsField(Numeral(n))
  {
    NumeralReadsBack(n, n);
    assert forall i :: 0 <= i < |Numeral(n)| ==> Numeral(n)[i] in Numeral(n);
  }

  lemma RequestLineIsField(p: Post)
    requires Sendable(p)
    ensures FieldLine(RequestLine(p))
  {
    assert IsField(POST) && IsField(VERSION) && IsField([SPACE]);
    FieldsJoined(p.target, [SPACE], VERSION);
    FieldsJoined(POST, [SPACE], p.target + [SPACE] + VERSION);
  }

  lemma HostLineIsField(p: Post)
    requires Sendable(p)
    ensures FieldLine(HeaderLine(HOST_NAME, p.host))
  {
    assert IsField(HOST_NAME) && IsField([COLON, SPACE]);
    FieldsJoined(HOST_NAME, [COLON, SPACE], p.host);
  }

  lemma FixedLinesAreFields()
    ensures FieldLine(JSON_LINE) && FieldLine(CLOSE_LINE)
  {
  }

  lemma LengthLineIsField(p: Post)
    ensures FieldLine(LengthLine(p))
  {
    NumeralIsField(|p.body|);
    assert IsField(LENGTH_NAME) && IsField([COLON, SPACE]);
    FieldsJoined(LENGTH_NAME, [COLON, SPACE], Numeral(|p.body|));
  }

  lemma AuthLineIsField(token: seq<byte>)
    requires IsField(token)
    ensures FieldLine(HeaderLine(AUTH_NAME, BEARER + token))
  {
    assert IsField(AUTH_NAME) && IsField([COLON, SPACE]) && IsField(BEARER);
    FieldsJoined(BEARER, [], token);
    assert BEARER + [] + token == BEARER + token;
    FieldsJoined(AUTH_NAME, [COLON, SPACE], BEARER + token);
  }

  lemma PostLinesAreFields(p: Post)
    requires Sendable(p)
    ensures forall l :: l in PostLines(p) ==> FieldLine(l)
  {
    RequestLineIsField(p);
    HostLineIsField(p);
    FixedLinesAreFields();
    LengthLineIsField(p);
    if p.token.Some? {
      AuthLineIsField(p.token.value);
    }
  }

  // ----- the head is text -----

  predicate AllAscii(s: seq<byte>) {
    forall i :: 0 <= i < |s| ==> s[i] < 128
  }

  lemma {:induction false} AsciiIsUtf8(s: seq<byte>)
    requires AllAscii(s)
    ensures ValidUtf8(s)
  {
    if s == [] {
    } else {
      AsciiIsUtf8(s[1..]);
    }
  }

  lemma AsciiJoined(a: seq<byte>, b: seq<byte>)
    requires AllAscii(a) && AllAscii(b)
    ensures AllAscii(a + CRLF + b)
  {
    assert AllAscii(CRLF);
  }

  lemma {:induction false} JoinedFieldsAreAscii(lines: seq<seq<byte>>)
    requires forall l :: l in lines ==> IsField(l)
    ensures AllAscii(Join(lines, CRLF))
  {
    if lines == [] {
    } else {
      assert lines[0] in lines && forall l :: l in lines[1..] ==> l in lines;
      JoinedFieldsAreAscii(lines[1..]);
      assert AllAscii(lines[0]);
      AsciiJoined(lines[0], Join(lines[1..], CRLF));
    }
  }

  // ----- the headers are read back -----

  /** A header line whose name has no colon is read back as its name and its trimmed value. */
  lemma HeaderReadsBack(name: seq<byte>, value: seq<byte>, lines: seq<seq<byte>>)
    requires COLON !in name
    ensures ParseHeaders([HeaderLine(name, value)] + lines)
         == [Header(name, Trim([SPACE] + value))] + ParseHeaders(lines)
  {
    var all := [HeaderLine(name, value)] + lines;
    assert all[1..] == lines;
    SplitOnceJoined(name, COLON, [SPACE] + value);
    assert HeaderLine(name, value) == name + [COLON] + ([SPACE] + value);
  }

  lemma TrimsToNumeral(n: nat)
    ensures Trim([SPACE] + Numeral(n)) == Numeral(n)
  {
    NumeralReadsBack(n, n);
    var s := Numeral(n);
    assert s[0] in s && s[|s| - 1] in s;
    assert ([SPACE] + s)[1..] == s;
    assert TrimStart([SPACE] + s) == TrimStart(s) == s;
  }

  lemma LengthNameMatches()
    ensures EqualIgnoringCase(LENGTH_NAME, CONTENT_LENGTH)
  {
  }

  /** A trailing header of another name does not change the content length. */
  lemma LengthBefore(headers: seq<Header>, h: Header)
    requires |h.name| != |CONTENT_LENGTH|
    ensures ContentLength(headers + [h]) == ContentLength(headers)
  {
    assert (headers + [h])[..|headers|] == headers;
  }

  lemma LengthLast(headers: seq<Header>, n: nat)
    requires n <= USIZE_MAX
    ensures ContentLength(headers + [Header(LENGTH_NAME, Numeral(n))]) == n
  {
    LengthNameMatches();
    NumeralReadsBack(n, USIZE_MAX);
  }

  lemma NamesHaveNoColon()
    ensures COLON !in HOST_NAME && COLON !in AUTH_NAME && COLON !in LENGTH_NAME
  {
  }

  const TYPE_HEADER := Header(TYPE_NAME, Trim([SPACE] + Ascii("application/json")))
  const CLOSE_HEADER := Header(Ascii("Connection"), Trim([SPACE] + Ascii("close")))

  lemma FixedLinesSplit()
    ensures JSON_LINE == HeaderLine(TYPE_NAME, Ascii("application/json")) && COLON !in TYPE_NAME
    ensures CLOSE_LINE == HeaderLine(Ascii("Connection"), Ascii("close")) && COLON !in Ascii("Connection")
  {
  }

  function AuthHeaders(p: Post): seq<Header> {
    match p.token
    case Some(t) => [Header(AUTH_NAME, Trim([SPACE] + (BEARER + t)))]
    case None => []
  }

  function PostHeaders(p: Post): seq<Header> {
    [Header(HOST_NAME, Trim([SPACE] + p.host)), TYPE_HEADER, Header(LENGTH_NAME, Numeral(|p.body|))]
    + AuthHeaders(p) + [CLOSE_HEADER]
  }

  lemma TailReadsBack(p: Post)
    ensures ParseHeaders(AuthLines(p) + [CLOSE_LINE]) == AuthHeaders(p) + [CLOSE_HEADER]
  {
    NamesHaveNoColon();
    FixedLinesSplit();
    HeaderReadsBack(Ascii("Connection"), Ascii("close"), []);
    assert [CLOSE_LINE] + [] == [CLOSE_LINE] && ParseHeaders([]) == [];
    match p.token {
      case Some(t) => HeaderReadsBack(AUTH_NAME, BEARER + t, [CLOSE_LINE]);
      case None =>
        assert AuthLines(p) + [CLOSE_LINE] == [CLOSE_LINE];
        assert AuthHeaders(p) + [CLOSE_HEADER] == [CLOSE_HEADER];
    }
  }

  lemma LengthAndTailReadBack(p: Post)
    ensures ParseHeaders([LengthLine(p)] + (AuthLines(p) + [CLOSE_LINE]))
         == [Header(LENGTH_NAME, Numeral(|p.body|))] + (AuthHeaders(p) + [CLOSE_HEADER])
  {
    NamesHaveNoColon();
    TailReadsBack(p);
    TrimsToNumeral(|p.body|);
    HeaderReadsBack(LENGTH_NAME, Numeral(|p.body|), AuthLines(p) + [CLOSE_LINE]);
  }

  lemma TypeReadsBack(lines: seq<seq<byte>>)
    ensures ParseHeaders([JSON_LINE] + lines) == [TYPE_HEADER] + ParseHeaders(lines)
  {
    FixedLinesSplit();
    HeaderReadsBack(TYPE_NAME, Ascii("application/json"), lines);
  }

  lemma PostLinesRegroup(p: Post)
    ensures PostLines(p)[1..]
         == [HeaderLine(HOST_NAME, p.host)] + ([JSON_LINE] + ([LengthLine(p)] + (AuthLines(p) + [CLOSE_LINE])))
  {
  }

  lemma PostHeadersRegroup(p: Post)
    ensures PostHeaders(p)
         == [Header(HOST_NAME, Trim([SPACE] + p.host))]
            + ([TYPE_HEADER] + ([Header(LENGTH_NAME, Numeral(|p.body|))] + (AuthHeaders(p) + [CLOSE_HEADER])))
  {
  }

  lemma HeadersReadBack(p: Post)
    ensures ParseHeaders(PostLines(p)[1..]) == PostHeaders(p)
  {
    NamesHaveNoColon();
    LengthAndTailReadBack(p);
    TypeReadsBack([LengthLine(p)] + (AuthLines(p) + [CLOSE_LINE]));
    PostLinesRegroup(p);
    PostHeadersRegroup(p);
    HeaderReadsBack(HOST_NAME, p.host, [JSON_LINE] + ([LengthLine(p)] + (AuthLines(p) + [CLOSE_LINE])));
  }

  lemma LengthReadsBack(p: Post)
    requires |p.body| <= USIZE_MAX
    ensures ContentLength(PostHeaders(p)) == |p.body|
  {
    var upTo := [Header(HOST_NAME, Trim([SPACE] + p.host)), TYPE_HEADER];
    var withLength := upTo + [Header(LENGTH_NAME, Numeral(|p.body|))];
    LengthLast(upTo, |p.body|);
    match p.token {
      case Some(t) =>
        var auth := AuthHeaders(p)[0];
        LengthBefore(withLength, auth);
        LengthBefore(withLength + [auth], CLOSE_HEADER);
        assert PostHeaders(p) == withLength + [auth] + [CLOSE_HEADER];
      case None =>
        LengthBefore(withLength, CLOSE_HEADER);
        assert PostHeaders(p) == withLength + [CLOSE_HEADER];
    }
  }

  /** The server parses the client's header block back to its verb, target and length. */
  lemma HeadReadsBack(p: Post)
    requires Sendable(p) && |p.body| <= USIZE_MAX
    ensures ParseHead(Join(PostLines(p), CRLF))
         == Some(Head(POST, PercentCodec.ParseTarget(p.target), PostHeaders(p), |p.body|))
  {
    var lines := PostLines(p);
    PostLinesAreFields(p);
    forall l | l in lines ensures IsLine(l) && IsField(l) {
      FieldLineIsLine(l);
    }
    LinesJoined(lines);
    JoinedFieldsAreAscii(lines);
    AsciiIsUtf8(Join(lines, CRLF));
    RequestWords(p);
    HeadersReadBack(p);
    LengthReadsBack(p);
  }

  lemma PostIsWord()
    ensures IsWord(POST)
  {
  }

  lemma RequestWords(p: Post)
    requires Sendable(p)
    ensures |Words(RequestLine(p))| >= 2
    ensures Words(RequestLine(p))[0] == POST && Words(RequestLine(p))[1] == p.target
  {
    PostIsWord();
    TwoWords(POST, p.target, VERSION);
  }

  /** The client's bytes fall apart at the first blank line into its head and its body. */
  lemma PostFallsApart(p: Post)
    requires Sendable(p)
    ensures var s, end := PostBytes(p), |Ended(PostLines(p))| - 2;
            && 0 <= end && end + 4 <= |s| && FindBlank(s) == Some(end)
            && s[..end] == Join(PostLines(p), CRLF) && s[end + 4..] == p.body
  {
    var lines := PostLines(p);
    PostLinesAreFields(p);
    forall l | l in lines ensures l != [] && PairFree(l) {
      FieldLineIsLine(l);
    }
    BlankEndsBlock(lines, p.body);
    BlockFallsApart(lines, p.body);
  }

  /**
   However the client's bytes are cut into reads, the server's two readers together return the
   client's target and exactly its body, when the head ends within 128 KiB and the body is
   within the server's limit.
   */
  lemma PostReachesServer(p: Post, chunks: seq<seq<byte>>, limit: nat)
    requires Sendable(p) && |p.body| <= limit <= USIZE_MAX
    requires Flatten(chunks) == PostBytes(p) && |Ended(PostLines(p))| + 2 <= HEAD_LIMIT
    ensures var out := ReadLoop([], chunks);
            && out.result.Some?
            && out.result.value.head.verb == POST
            && out.result.value.head.target == PercentCodec.ParseTarget(p.target)
            && Body(out.result.value.leftover + Flatten(out.rest), out.result.value.head.contentLength, limit)
               == Some(p.body)
  {
    PostFallsApart(p);
    HeadReadsBack(p);
    ShortHeadIsRead(chunks, |Ended(PostLines(p))| - 2);
    assert p.body[..|p.body|] == p.body;
  }
}
