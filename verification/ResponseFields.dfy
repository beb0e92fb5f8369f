/**
 What a response and a request say in their header fields (src/api.rs, `ApiResponse::into_bytes`
 and `cli_post`): read back field by field with the server's own header parser.
 */
module ResponseFields {
  import opened Wrappers
  import opened Bytes
  import opened RequestReader
  import opened HeaderBlock
  import opened ResponseCodec
  import opened CliRequest
  import opened RequestFields
  import opened TextPieces

  lemma {:induction false} ParseHeadersAppends(a: seq<seq<byte>>, b: seq<seq<byte>>)
    ensures ParseHeaders(a + b) == ParseHeaders(a) + ParseHeaders(b)
  {
    if a == [] {
      assert a + b == b;
    } else {
      assert (a + b)[1..] == a[1..] + b;
      ParseHeadersAppends(a[1..], b);
    }
  }

  lemma OneHeaderReadsBack(name: seq<byte>, value: seq<byte>)
    requires COLON !in name
    ensures ParseHeaders([HeaderLine(name, value)]) == [Header(name, Trim([SPACE] + value))]
  {
    HeaderReadsBack(name, value, []);
    assert [HeaderLine(name, value)] + [] == [HeaderLine(name, value)];
  }

  /** The fields as a reader gets them: names as they are, values trimmed. */
  function AsRead(headers: seq<Header>): seq<Header> {
    seq(|headers|, i requires 0 <= i < |headers| => Header(headers[i].name, Trim([SPACE] + headers[i].value)))
  }

  lemma AsReadSnoc(headers: seq<Header>)
    requires headers != []
    ensures var n := |headers| - 1;
            AsRead(headers) == AsRead(headers[..n]) + [Header(headers[n].name, Trim([SPACE] + headers[n].value))]
  {
  }

  lemma {:induction false} HeadersAsRead(headers: seq<Header>)
    requires forall h :: h in headers ==> COLON !in h.name
    ensures ParseHeaders(HeaderLines(headers)) == AsRead(headers)
  {
    if headers == [] {
    } else {
      var n := |headers| - 1;
      var last := headers[n];
      assert last in headers && forall h :: h in headers[..n] ==> h in headers;
      HeadersAsRead(headers[..n]);
      OneHeaderReadsBack(last.name, last.value);
      ParseHeadersAppends(HeaderLines(headers[..n]), [HeaderLine(last.name, last.value)]);
      AsReadSnoc(headers);
    }
  }

  /** The fields every response begins with. */
  function LeadFields(r: ApiResponse): seq<Header> {
    [Header(TYPE_NAME, Trim([SPACE] + r.contentType)), Header(LENGTH_NAME, Numeral(|r.body|))]
  }

  function LeadLines(r: ApiResponse): seq<seq<byte>> {
    [HeaderLine(TYPE_NAME, r.contentType), HeaderLine(LENGTH_NAME, Numeral(|r.body|))]
  }

  lemma LeadReadsBack(r: ApiResponse)
    ensures ParseHeaders(LeadLines(r)) == LeadFields(r)
  {
    FixedLinesSplit();
    NamesHaveNoColon();
    TrimsToNumeral(|r.body|);
    OneHeaderReadsBack(TYPE_NAME, r.contentType);
    OneHeaderReadsBack(LENGTH_NAME, Numeral(|r.body|));
    ParseHeadersAppends([HeaderLine(TYPE_NAME, r.contentType)], [HeaderLine(LENGTH_NAME, Numeral(|r.body|))]);
  }

  lemma CloseReadsBack()
    ensures ParseHeaders([CLOSE_LINE]) == [CLOSE_HEADER]
  {
    FixedLinesSplit();
    OneHeaderReadsBack(Ascii("Connection"), Ascii("close"));
  }

  lemma TailOfThree(a: seq<byte>, b: seq<byte>, c: seq<byte>, own: seq<seq<byte>>, last: seq<seq<byte>>)
    ensures ([a, b, c] + own + last)[1..] == [b, c] + own + last
  {
  }

  lemma FieldLinesAre(r: ApiResponse)
    ensures ResponseLines(r)[1..] == LeadLines(r) + HeaderLines(r.headers) + [CLOSE_LINE]
  {
    var status, lead, own := StatusLine(r.status), LeadLines(r), HeaderLines(r.headers);
    assert ResponseLines(r) == [status, lead[0], lead[1]] + own + [CLOSE_LINE];
    TailOfThree(status, lead[0], lead[1], own, [CLOSE_LINE]);
    assert lead == [lead[0], lead[1]];
  }

  /** A response's fields: its content type, the length of its body, its own fields in order, and the
      close of the connection. */
  lemma ResponseFieldsReadBack(r: ApiResponse)
    requires forall h :: h in r.headers ==> COLON !in h.name
    ensures ParseHeaders(ResponseLines(r)[1..]) == LeadFields(r) + AsRead(r.headers) + [CLOSE_HEADER]
  {
    LeadReadsBack(r);
    CloseReadsBack();
    HeadersAsRead(r.headers);
    ParseHeadersAppends(LeadLines(r), HeaderLines(r.headers));
    ParseHeadersAppends(LeadLines(r) + HeaderLines(r.headers), [CLOSE_LINE]);
    FieldLinesAre(r);
  }

  /** The reason phrases are those of section 15 of RFC 9110. */
  lemma EarlyPhrases()
    ensures StatusText(200) == "OK" && StatusText(202) == "Accepted" && StatusText(400) == "Bad Request"
    ensures StatusText(401) == "Unauthorized" && StatusText(403) == "Forbidden" && StatusText(404) == "Not Found"
    ensures StatusText(405) == "Method Not Allowed" && StatusText(409) == "Conflict"
  {
  }

  lemma LatePhrases()
    ensures StatusText(411) == "Length Required" && StatusText(413) == "Content Too Large"
    ensures StatusText(415) == "Unsupported Media Type" && StatusText(417) == "Expectation Failed"
    ensures StatusText(429) == "Too Many Requests" && StatusText(500) == "Internal Server Error"
    ensures StatusText(501) == "Not Implemented" && StatusText(503) == "Service Unavailable"
    ensures StatusText(504) == "Gateway Timeout"
  {
  }

  // ----- what the client makes of a response -----

  /** The client reads a response exactly when it has a blank line. */
  lemma ResponseReadExactly(raw: seq<byte>)
    ensures ParseCliResponse(raw).Some? <==> exists i: nat :: BlankAt(raw, i)
  {
    FindBlankIsFirst(raw);
  }

  /** The text's first line holds this word second. */
  ghost predicate SecondWord(text: seq<byte>, word: seq<byte>) {
    Lines(text) != [] && |Words(Lines(text)[0])| >= 2 && Words(Lines(text)[0])[1] == word
  }

  /** The status is the number in the second word of the first line, up to 65535, and 0 without one. */
  lemma StatusReadExactly(text: seq<byte>, word: seq<byte>, n: nat)
    ensures SecondWord(text, word) && IsNumber(word, n) && n <= U16_MAX ==> ParseStatus(text) == n
    ensures ParseStatus(text) != 0 ==> exists w :: SecondWord(text, w) && IsNumber(w, ParseStatus(text))
  {
    NumbersReadExactly(word, U16_MAX, n);
    if ParseStatus(text) != 0 {
      var w := Words(Lines(text)[0])[1];
      NumbersReadExactly(w, U16_MAX, ParseStatus(text));
      assert SecondWord(text, w);
    }
  }

  // ----- the client's token -----

  lemma {:induction false} TrimKeepsEnds(s: seq<byte>)
    requires s != [] && !IsSpace(s[0]) && !IsSpace(s[|s| - 1])
    ensures Trim([SPACE] + s) == s
  {
    assert ([SPACE] + s)[1..] == s;
    assert TrimStart([SPACE] + s) == TrimStart(s) == s;
  }

  /** No field of the client's but the credential has a name as long as its name. */
  lemma OtherNames()
    ensures |AUTH_NAME| == 13 && |HOST_NAME| == 4 && |TYPE_NAME| == 12 && |LENGTH_NAME| == 14
    ensures |CLOSE_HEADER.name| == 10
  {
  }

  lemma CredentialText()
    ensures ToText(AUTH_NAME) == "Authorization" && ToText(BEARER) == "Bearer "
  {
  }

  lemma CredentialTrims(t: seq<byte>)
    requires t != [] && !IsSpace(t[|t| - 1])
    ensures Trim([SPACE] + (BEARER + t)) == BEARER + t
  {
    assert BEARER[0] == 66;
    TrimKeepsEnds(BEARER + t);
  }

  /** The server finds the client's token as a bearer credential (section 2.1 of RFC 6750), and no
      credential when the client has none. */
  lemma TokenReachesServer(p: Post)
    requires Sendable(p) && |p.body| <= USIZE_MAX
    requires p.token.Some? ==> p.token.value != [] && !IsSpace(p.token.value[|p.token.value| - 1])
    ensures ToText(AUTH_NAME) == "Authorization" && ToText(BEARER) == "Bearer "
    ensures ParseHead(Join(PostLines(p), CRLF)).Some?
    ensures var headers := ParseHead(Join(PostLines(p), CRLF)).value.headers;
            if p.token.Some? then Header(AUTH_NAME, BEARER + p.token.value) in headers
            else forall h :: h in headers ==> h.name != AUTH_NAME
  {
    HeadReadsBack(p);
    CredentialText();
    match p.token {
      case Some(t) =>
        CredentialTrims(t);
        assert AuthHeaders(p)[0] == Header(AUTH_NAME, BEARER + t);
      case None =>
        OtherNames();
        assert AuthHeaders(p) == [];
    }
  }
}
