/**
 Writing an HTTP/1.1 response and reading it back in the command-line client (src/api.rs,
 `ApiResponse::into_bytes` and `parse_cli_response`; RFC 9112 sections 4 and 5).
 */
module ResponseCodec {
  import opened Wrappers
  import opened Bytes
  import opened RequestReader
  import opened HeaderBlock

  const U16_MAX: nat := 0xFFFF

  datatype ApiResponse = ApiResponse(status: nat, contentType: seq<byte>, headers: seq<Header>, body: seq<byte>)

  /** Non-empty printable ASCII. */
  predicate IsPlain(t: string) {
    t != "" && forall i :: 0 <= i < |t| ==> ' ' <= t[i] <= '~'
  }

  // The reason phrases, a few to each function.

  function StatusText(status: nat): (t: string)
    ensures IsPlain(t)
  {
    match status
    case 200 => "OK"
    case 202 => "Accepted"
    case _ =>
      if status < 404 then AccessText(status)
      else if status < 500 then RequestText(status)
      else ServerText(status)
  }

  function AccessText(status: nat): (t: string)
    ensures IsPlain(t)
  {
    match status
    case 400 => "Bad Request"
    case 401 => "Unauthorized"
    case 403 => "Forbidden"
    case _ => "Unknown"
  }

  function RequestText(status: nat): (t: string)
    ensures IsPlain(t)
  {
    match status
    case 404 => "Not Found"
    case 405 => "Method Not Allowed"
    case 409 => "Conflict"
    case _ => ContentText(status)
  }

  function ContentText(status: nat): (t: string)
    ensures IsPlain(t)
  {
    match status
    case 411 => "Length Required"
    case 413 => "Content Too Large"
    case 415 => "Unsupported Media Type"
    case _ => LimitText(status)
  }

  function LimitText(status: nat): (t: string)
    ensures IsPlain(t)
  {
    match status
    case 417 => "Expectation Failed"
    case 429 => "Too Many Requests"
    case _ => "Unknown"
  }

  function ServerText(status: nat): (t: string)
    ensures IsPlain(t)
  {
    match status
    case 500 => "Internal Server Error"
    case 501 => "Not Implemented"
    case _ => OutageText(status)
  }

  function OutageText(status: nat): (t: string)
    ensures IsPlain(t)
  {
    match status
    case 503 => "Service Unavailable"
    case 504 => "Gateway Timeout"
    case _ => "Unknown"
  }

  const VERSION: seq<byte> := Ascii("HTTP/1.1")

  function StatusLine(status: nat): seq<byte> {
    VERSION + [SPACE] + (Numeral(status) + [SPACE] + Ascii(StatusText(status)))
  }

  function HeaderLines(headers: seq<Header>): seq<seq<byte>> {
    if headers == [] then []
    else HeaderLines(headers[..|headers| - 1])
         + [HeaderLine(headers[|headers| - 1].name, headers[|headers| - 1].value)]
  }

  const TYPE_NAME: seq<byte> := Ascii("Content-Type")
  const LENGTH_NAME: seq<byte> := Ascii("Content-Length")
  const CLOSE_LINE: seq<byte> := Ascii("Connection: close")

  function ResponseLines(r: ApiResponse): seq<seq<byte>> {
    [StatusLine(r.status), HeaderLine(TYPE_NAME, r.contentType),
     HeaderLine(LENGTH_NAME, Numeral(|r.body|))]
    + HeaderLines(r.headers) + [CLOSE_LINE]
  }

  function ResponseBytes(r: ApiResponse): seq<byte> {
    Ended(ResponseLines(r)) + CRLF + r.body
  }

  lemma EndedOne(line: seq<byte>)
    ensures Ended([line]) == line + CRLF
  {
    assert Ended([line]) == line + CRLF + Ended([]);
  }

  lemma EndedSnoc(lines: seq<seq<byte>>, line: seq<byte>)
    ensures Ended(lines + [line]) == Ended(lines) + (line + CRLF)
  {
    EndedAppend(lines, [line]);
    EndedOne(line);
  }

  lemma EndedThree(a: seq<byte>, b: seq<byte>, c: seq<byte>)
    ensures Ended([a, b, c]) == a + CRLF + (b + CRLF) + (c + CRLF)
  {
    EndedSnoc([a, b], c);
    EndedSnoc([a], b);
    EndedOne(a);
    assert [a, b] == [a] + [b] && [a, b, c] == [a, b] + [c];
  }

  function LinesSoFar(r: ApiResponse, n: nat): seq<seq<byte>>
    requires n <= |r.headers|
  {
    [StatusLine(r.status), HeaderLine(TYPE_NAME, r.contentType), HeaderLine(LENGTH_NAME, Numeral(|r.body|))]
    + HeaderLines(r.headers[..n])
  }

  lemma FirstLines(r: ApiResponse)
    ensures Ended(LinesSoFar(r, 0)) == StatusLine(r.status) + CRLF + (HeaderLine(TYPE_NAME, r.contentType) + CRLF)
                                       + (HeaderLine(LENGTH_NAME, Numeral(|r.body|)) + CRLF)
  {
    var status, kind, length := StatusLine(r.status), HeaderLine(TYPE_NAME, r.contentType),
                                HeaderLine(LENGTH_NAME, Numeral(|r.body|));
    EndedThree(status, kind, length);
    assert r.headers[..0] == [];
    assert LinesSoFar(r, 0) == [status, kind, length];
  }

  lemma OneMoreLine(r: ApiResponse, n: nat)
    requires n < |r.headers|
    ensures Ended(LinesSoFar(r, n + 1))
         == Ended(LinesSoFar(r, n)) + (HeaderLine(r.headers[n].name, r.headers[n].value) + CRLF)
  {
    var line := HeaderLine(r.headers[n].name, r.headers[n].value);
    assert r.headers[..n + 1][..n] == r.headers[..n];
    assert LinesSoFar(r, n + 1) == LinesSoFar(r, n) + [line];
    EndedSnoc(LinesSoFar(r, n), line);
  }

  lemma LastLine(r: ApiResponse)
    ensures Ended(LinesSoFar(r, |r.headers|)) + (CLOSE_LINE + CRLF) + CRLF + r.body == ResponseBytes(r)
  {
    assert r.headers[..|r.headers|] == r.headers;
    assert ResponseLines(r) == LinesSoFar(r, |r.headers|) + [CLOSE_LINE];
    EndedSnoc(LinesSoFar(r, |r.headers|), CLOSE_LINE);
  }

  method IntoBytes(r: ApiResponse) returns (out: seq<byte>)
    ensures out == ResponseBytes(r)
  {
    out := StatusLine(r.status) + CRLF + (HeaderLine(TYPE_NAME, r.contentType) + CRLF)
           + (HeaderLine(LENGTH_NAME, Numeral(|r.body|)) + CRLF);
    FirstLines(r);
    var i := 0;
    while i < |r.headers|
      invariant i <= |r.headers|
      invariant out == Ended(LinesSoFar(r, i))
    {
      OneMoreLine(r, i);
      out := out + (HeaderLine(r.headers[i].name, r.headers[i].value) + CRLF);
      i := i + 1;
    }
    LastLine(r);
    out := out + (CLOSE_LINE + CRLF) + CRLF + r.body;
  }

  datatype CliResponse = CliResponse(status: nat, body: seq<byte>)

  /** The second word of the first line, as a status; 0 when it is none. */
  function ParseStatus(text: seq<byte>): nat {
    var lines := Lines(text);
    if lines == [] then 0
    else
      var words := Words(lines[0]);
      if |words| < 2 then 0 else ParseUnsigned(words[1], U16_MAX).GetOr(0)
  }

  function ParseCliResponse(raw: seq<byte>): Option<CliResponse> {
    match FindBlank(raw)
    case None => None
    case Some(blank) =>
      FindBlankIsFirst(raw);
      Some(CliResponse(ParseStatus(raw[..blank]), raw[blank + 4..]))
  }

  /** No header field, nor the content type, holds a CRLF. */
  predicate FieldsPairFree(r: ApiResponse) {
    PairFree(r.contentType) && forall h :: h in r.headers ==> PairFree(h.name) && PairFree(h.value)
  }

  lemma HeaderLinePairFree(name: seq<byte>, value: seq<byte>)
    requires PairFree(name) && PairFree(value)
    ensures HeaderLine(name, value) != [] && PairFree(HeaderLine(name, value))
  {
    var line := HeaderLine(name, value);
    forall i | 0 <= i < |line| - 1 ensures !(line[i] == CR && line[i + 1] == LF) {
      if i + 1 < |name| {
        assert !(name[i] == CR && name[i + 1] == LF);
      } else if i >= |name| + 2 {
        assert !(value[i - |name| - 2] == CR && value[i - |name| - 1] == LF);
      }
    }
  }

  lemma {:induction false} HeaderLinesPairFree(headers: seq<Header>)
    requires forall h :: h in headers ==> PairFree(h.name) && PairFree(h.value)
    ensures forall l :: l in HeaderLines(headers) ==> l != [] && PairFree(l)
  {
    if headers == [] {
    } else {
      var front, last := headers[..|headers| - 1], headers[|headers| - 1];
      assert last in headers && forall h :: h in front ==> h in headers;
      HeaderLinesPairFree(front);
      HeaderLinePairFree(last.name, last.value);
    }
  }

  /** Neither CR nor LF. */
  predicate Unbroken(s: seq<byte>) {
    forall i :: 0 <= i < |s| ==> s[i] != CR && s[i] != LF
  }

  lemma UnbrokenJoined(a: seq<byte>, b: seq<byte>)
    requires Unbroken(a) && Unbroken(b)
    ensures Unbroken(a + [SPACE] + b)
  {
  }

  lemma UnbrokenIsLine(s: seq<byte>)
    requires Unbroken(s) && s != []
    ensures IsLine(s) && PairFree(s)
  {
  }

  lemma NumeralUnbroken(n: nat)
    ensures Unbroken(Numeral(n))
  {
    NumeralReadsBack(n, n);
    assert forall i :: 0 <= i < |Numeral(n)| ==> Numeral(n)[i] in Numeral(n);
  }

  lemma StatusLineIsLine(status: nat)
    ensures IsLine(StatusLine(status)) && PairFree(StatusLine(status))
  {
    var text := Ascii(StatusText(status));
    var rest := Numeral(status) + [SPACE] + text;
    assert Unbroken(text) && Unbroken(VERSION);
    NumeralUnbroken(status);
    UnbrokenJoined(Numeral(status), text);
    UnbrokenJoined(VERSION, rest);
    UnbrokenIsLine(StatusLine(status));
  }

  lemma VersionIsWord()
    ensures IsWord(VERSION)
  {
  }

  lemma TwoWords(a: seq<byte>, b: seq<byte>, rest: seq<byte>)
    requires IsWord(a) && IsWord(b)
    ensures Words(a + [SPACE] + (b + [SPACE] + rest)) == [a, b] + Words(rest)
  {
    var tail := b + [SPACE] + rest;
    FirstWord(b, rest);
    assert Words(tail) == [b] + Words(rest);
    FirstWord(a, tail);
    assert Words(a + [SPACE] + tail) == [a] + Words(tail);
    OneByOne(a, b, Words(rest));
  }

  lemma OneByOne(a: seq<byte>, b: seq<byte>, rest: seq<seq<byte>>)
    ensures [a] + ([b] + rest) == [a, b] + rest
  {
  }

  lemma StatusLineWords(status: nat)
    ensures Words(StatusLine(status)) == [VERSION, Numeral(status)] + Words(Ascii(StatusText(status)))
  {
    VersionIsWord();
    NumeralReadsBack(status, status);
    TwoWords(VERSION, Numeral(status), Ascii(StatusText(status)));
  }

  lemma TypeLinePairFree(contentType: seq<byte>)
    requires PairFree(contentType)
    ensures HeaderLine(TYPE_NAME, contentType) != [] && PairFree(HeaderLine(TYPE_NAME, contentType))
  {
    assert Unbroken(TYPE_NAME);
    HeaderLinePairFree(TYPE_NAME, contentType);
  }

  lemma LengthLinePairFree(length: nat)
    ensures HeaderLine(LENGTH_NAME, Numeral(length)) != [] && PairFree(HeaderLine(LENGTH_NAME, Numeral(length)))
  {
    assert Unbroken(LENGTH_NAME);
    NumeralUnbroken(length);
    HeaderLinePairFree(LENGTH_NAME, Numeral(length));
  }

  lemma ResponseLinesPairFree(r: ApiResponse)
    requires FieldsPairFree(r)
    ensures forall l :: l in ResponseLines(r) ==> l != [] && PairFree(l)
  {
    StatusLineIsLine(r.status);
    TypeLinePairFree(r.contentType);
    LengthLinePairFree(|r.body|);
    HeaderLinesPairFree(r.headers);
    assert Unbroken(CLOSE_LINE);
    UnbrokenIsLine(CLOSE_LINE);
  }

  /**
   The client reads back exactly the status and the body of any response, a body holding blank
   lines included, when no header field holds a CRLF.
   */
  lemma ResponseReadsBack(r: ApiResponse)
    requires r.status <= U16_MAX && FieldsPairFree(r)
    ensures ParseCliResponse(ResponseBytes(r)) == Some(CliResponse(r.status, r.body))
  {
    var lines := ResponseLines(r);
    ResponseLinesPairFree(r);
    BlankEndsBlock(lines, r.body);
    BlockFallsApart(lines, r.body);
    StatusLineIsLine(r.status);
    StatusLineWords(r.status);
    NumeralReadsBack(r.status, U16_MAX);
    assert Join(lines, CRLF) == lines[0] + CRLF + Join(lines[1..], CRLF);
    FirstLine(lines[0], Join(lines[1..], CRLF));
  }
}
