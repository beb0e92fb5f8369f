/**
 What counts as text in a request head (src/api.rs, `read_request_head`; RFC 3629 section 3): the
 bytes are well-formed exactly when they are the encoding of some sequence of code points.
 */
module Utf8 {
  import opened Bytes
  import opened RequestReader

  /** A Unicode scalar value: a code point that is not a surrogate. */
  type scalar = c: int | 0 <= c < 0xD800 || 0xE000 <= c <= 0x10FFFF

  /** A continuation byte with these six bits. */
  function Tail(bits: int): byte { 0x80 + bits % 64 }

  function EncodeScalar(c: scalar): seq<byte> {
    if c < 0x80 then
      var only: byte := c;
      [only]
    else if c < 0x800 then
      var head: byte := 0xC0 + c / 64;
      [head, Tail(c)]
    else if c < 0x10000 then
      var head: byte := 0xE0 + c / 4096;
      [head, Tail(c / 64), Tail(c)]
    else
      var head: byte := 0xF0 + c / 262144;
      [head, Tail(c / 4096), Tail(c / 64), Tail(c)]
  }

  function EncodeText(cs: seq<scalar>): seq<byte> {
    if cs == [] then [] else EncodeScalar(cs[0]) + EncodeText(cs[1..])
  }

  /** A scalar value's first bytes are neither overlong nor a surrogate's. */
  lemma HeadBytes(c: scalar)
    ensures 0x80 <= c < 0x800 ==> 0xC2 <= EncodeScalar(c)[0] <= 0xDF
    ensures 0x800 <= c < 0x10000 ==>
              var code := EncodeScalar(c);
              && 0xE0 <= code[0] <= 0xEF
              && (code[0] == 0xE0 ==> code[1] >= 0xA0) && (code[0] == 0xED ==> code[1] < 0xA0)
    ensures 0x10000 <= c ==>
              var code := EncodeScalar(c);
              && 0xF0 <= code[0] <= 0xF4
              && (code[0] == 0xF0 ==> code[1] >= 0x90) && (code[0] == 0xF4 ==> code[1] < 0x90)
  {
    assert c / 4096 == c / 64 / 64 && c / 262144 == c / 4096 / 64;
  }

  /** The encoding of one scalar value in front of well-formed bytes is well-formed. */
  lemma ScalarIsValid(c: scalar, rest: seq<byte>)
    requires ValidUtf8(rest)
    ensures ValidUtf8(EncodeScalar(c) + rest)
  {
    var code := EncodeScalar(c);
    var s := code + rest;
    HeadBytes(c);
    assert s[|code|..] == rest;
    assert forall i :: 0 <= i < |code| ==> s[i] == code[i];
  }

  lemma {:induction false} TextIsValid(cs: seq<scalar>)
    ensures ValidUtf8(EncodeText(cs))
  {
    if cs == [] {
    } else {
      TextIsValid(cs[1..]);
      ScalarIsValid(cs[0], EncodeText(cs[1..]));
    }
  }

  lemma TwoBytes(a: byte, b: byte) returns (c: scalar)
    requires 0xC2 <= a <= 0xDF && Continues(b)
    ensures EncodeScalar(c) == [a, b]
  {
    c := (a - 0xC0) * 64 + (b - 0x80);
  }

  lemma ThreeBytes(a: byte, b: byte, d: byte) returns (c: scalar)
    requires 0xE0 <= a <= 0xEF && Continues(b) && Continues(d)
    requires (a == 0xE0 ==> b >= 0xA0) && (a == 0xED ==> b < 0xA0)
    ensures EncodeScalar(c) == [a, b, d]
  {
    var x := (a - 0xE0) * 64 + (b - 0x80);
    c := x * 64 + (d - 0x80);
    assert c / 64 == x;
    assert c / 4096 == x / 64;
  }

  lemma FourBytes(a: byte, b: byte, d: byte, e: byte) returns (c: scalar)
    requires 0xF0 <= a <= 0xF4 && Continues(b) && Continues(d) && Continues(e)
    requires (a == 0xF0 ==> b >= 0x90) && (a == 0xF4 ==> b < 0x90)
    ensures EncodeScalar(c) == [a, b, d, e]
  {
    var x := (a - 0xF0) * 64 + (b - 0x80);
    var y := x * 64 + (d - 0x80);
    c := y * 64 + (e - 0x80);
    assert c / 64 == y;
    assert c / 4096 == y / 64 == x;
    assert c / 262144 == x / 64;
  }

  /** Well-formed bytes begin with the encoding of a scalar value. */
  lemma FirstScalar(s: seq<byte>) returns (c: scalar)
    requires s != [] && ValidUtf8(s)
    ensures var n := |EncodeScalar(c)|;
            n <= |s| && s[..n] == EncodeScalar(c) && ValidUtf8(s[n..])
  {
    if s[0] < 0x80 {
      c := s[0];
    } else if s[0] <= 0xDF {
      c := TwoBytes(s[0], s[1]);
    } else if s[0] <= 0xEF {
      c := ThreeBytes(s[0], s[1], s[2]);
    } else {
      c := FourBytes(s[0], s[1], s[2], s[3]);
    }
  }

  lemma {:induction false} ValidIsText(s: seq<byte>) returns (cs: seq<scalar>)
    requires ValidUtf8(s)
    ensures EncodeText(cs) == s
    decreases |s|
  {
    if s == [] {
      cs := [];
    } else {
      var c := FirstScalar(s);
      var n := |EncodeScalar(c)|;
      var rest := ValidIsText(s[n..]);
      cs := [c] + rest;
      assert s == s[..n] + s[n..];
    }
  }

  /** Exactly the encodings of text are accepted. */
  lemma ValidExactly(s: seq<byte>)
    ensures ValidUtf8(s) <==> exists cs :: EncodeText(cs) == s
  {
    if ValidUtf8(s) {
      var cs := ValidIsText(s);
    }
    if cs :| EncodeText(cs) == s {
      TextIsValid(cs);
    }
  }
}
