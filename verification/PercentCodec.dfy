/**
 Percent-encoding of query components (src/api.rs, `urlencode` and `decode_query_component`;
 RFC 3986 sections 2.1 and 2.3), and the query string a request target carries.
 */
module PercentCodec {
  import opened Wrappers
  import opened Bytes

  const PERCENT: byte := 37
  const AMP: byte := 38
  const EQUALS: byte := 61
  const QUESTION: byte := 63

  /** Letters, digits, `-`, `.`, `_` and `~` stand for themselves. */
  predicate Unreserved(b: byte) {
    65 <= b <= 90 || 97 <= b <= 122 || 48 <= b <= 57 || b == 45 || b == 46 || b == 95 || b == 126
  }

  function HexDigit(d: nat): byte
    requires d < 16
  {
    if d < 10 then 48 + d else 55 + d
  }

  function HexValue(b: byte): Option<nat> {
    if 48 <= b <= 57 then Some(b - 48)
    else if 97 <= b <= 102 then Some(b - 87)
    else if 65 <= b <= 70 then Some(b - 55)
    else None
  }

  function EncodeByte(b: byte): seq<byte> {
    if Unreserved(b) then [b] else [PERCENT, HexDigit(b / 16), HexDigit(b % 16)]
  }

  function Encode(s: seq<byte>): seq<byte> {
    if s == [] then [] else EncodeByte(s[0]) + Encode(s[1..])
  }

  /** A `%` with two bytes behind it that are both hexadecimal. */
  predicate IsEscape(s: seq<byte>) {
    |s| > 2 && s[0] == PERCENT && HexValue(s[1]).Some? && HexValue(s[2]).Some?
  }

  function EscapedByte(s: seq<byte>): byte
    requires IsEscape(s)
  {
    HexValue(s[1]).value * 16 + HexValue(s[2]).value
  }

  /** Escapes are decoded, a raw plus is a space, everything else is literal. */
  function Decode(s: seq<byte>): seq<byte> {
    if s == [] then []
    else if IsEscape(s) then [EscapedByte(s)] + Decode(s[3..])
    else [if s[0] == PLUS then SPACE else s[0]] + Decode(s[1..])
  }

  /** A piece added at the end, whatever is still to come. */
  function Pushed(out: seq<byte>, piece: seq<byte>, ghost rest: seq<byte>): (r: seq<byte>)
    ensures r + rest == out + (piece + rest)
  {
    out + piece
  }

  method UrlEncode(s: seq<byte>) returns (out: seq<byte>)
    ensures out == Encode(s)
    ensures Decode(out) == s
  {
    out := [];
    var i := 0;
    while i < |s|
      invariant i <= |s|
      invariant out + Encode(s[i..]) == Encode(s)
    {
      assert s[i..][0] == s[i] && s[i..][1..] == s[i + 1..];
      ghost var rest := Encode(s[i + 1..]);
      assert Encode(s[i..]) == EncodeByte(s[i]) + rest;
      if Unreserved(s[i]) {
        out := Pushed(out, [s[i]], rest);
      } else {
        out := Pushed(out, [PERCENT, HexDigit(s[i] / 16), HexDigit(s[i] % 16)], rest);
      }
      i := i + 1;
    }
    EncodeThenDecode(s);
  }

  method DecodeQueryComponent(s: seq<byte>) returns (out: seq<byte>)
    ensures out == Decode(s)
  {
    out := [];
    var i := 0;
    while i < |s|
      invariant i <= |s|
      invariant out + Decode(s[i..]) == Decode(s)
    {
      DecodeFrom(s, i);
      if s[i] == PERCENT && i + 2 < |s| && HexValue(s[i + 1]).Some? && HexValue(s[i + 2]).Some? {
        out := Pushed(out, [HexValue(s[i + 1]).value * 16 + HexValue(s[i + 2]).value], Decode(s[i + 3..]));
        i := i + 3;
      } else {
        out := Pushed(out, [if s[i] == PLUS then SPACE else s[i]], Decode(s[i + 1..]));
        i := i + 1;
      }
    }
  }

  /** One step of decoding, at an index. */
  lemma DecodeFrom(s: seq<byte>, i: nat)
    requires i < |s|
    ensures if s[i] == PERCENT && i + 2 < |s| && HexValue(s[i + 1]).Some? && HexValue(s[i + 2]).Some?
            then Decode(s[i..]) == [HexValue(s[i + 1]).value * 16 + HexValue(s[i + 2]).value] + Decode(s[i + 3..])
            else Decode(s[i..]) == [if s[i] == PLUS then SPACE else s[i]] + Decode(s[i + 1..])
  {
    var tail := s[i..];
    assert tail[0] == s[i] && tail[1..] == s[i + 1..];
    if i + 2 < |s| {
      assert tail[1] == s[i + 1] && tail[2] == s[i + 2] && tail[3..] == s[i + 3..];
    }
  }

  lemma EscapeReadsBack(b: byte)
    ensures HexValue(HexDigit(b / 16)) == Some(b / 16) && HexValue(HexDigit(b % 16)) == Some(b % 16)
    ensures (b / 16) * 16 + b % 16 == b
  {
  }

  /** Decoding undoes encoding, for every byte string. */
  lemma {:induction false} EncodeThenDecode(s: seq<byte>)
    ensures Decode(Encode(s)) == s
  {
    if s == [] {
    } else {
      EncodeThenDecode(s[1..]);
      EscapeReadsBack(s[0]);
      var code, rest := EncodeByte(s[0]), Encode(s[1..]);
      assert code + rest == Encode(s);
      assert (code + rest)[|code|..] == rest;
    }
  }

  /** An encoded string holds unreserved bytes and percent signs only. */
  lemma {:induction false} EncodedIsPlain(s: seq<byte>)
    ensures forall b :: b in Encode(s) ==> Unreserved(b) || b == PERCENT
  {
    if s == [] {
    } else {
      EncodedIsPlain(s[1..]);
      assert forall b :: b in Encode(s) <==> b in EncodeByte(s[0]) || b in Encode(s[1..]);
    }
  }

  // ----- query strings -----

  datatype Pair = Pair(key: seq<byte>, value: seq<byte>)

  datatype Target = Target(path: seq<byte>, query: seq<Pair>)

  /** One `key=value` piece; without an equals sign the value is empty. */
  function ParsePair(piece: seq<byte>): Pair {
    match SplitOnce(piece, EQUALS)
    case Some(h) => Pair(Decode(h.before), Decode(h.after))
    case None => Pair(Decode(piece), [])
  }

  function ParsePairs(pieces: seq<seq<byte>>): seq<Pair> {
    if pieces == [] then [] else [ParsePair(pieces[0])] + ParsePairs(pieces[1..])
  }

  /** A request target: the path, and the query behind the first question mark. */
  function ParseTarget(raw: seq<byte>): Target {
    match SplitOnce(raw, QUESTION)
    case Some(h) => Target(h.before, ParsePairs(Split(h.after, AMP)))
    case None => Target(raw, [])
  }

  function PrintPair(p: Pair): seq<byte> { Encode(p.key) + [EQUALS] + Encode(p.value) }

  function PrintPairs(pairs: seq<Pair>): seq<seq<byte>> {
    if pairs == [] then [] else [PrintPair(pairs[0])] + PrintPairs(pairs[1..])
  }

  function PrintTarget(path: seq<byte>, pairs: seq<Pair>): seq<byte> {
    path + [QUESTION] + Join(PrintPairs(pairs), [AMP])
  }

  lemma PairReadsBack(p: Pair)
    ensures ParsePair(PrintPair(p)) == p
  {
    EncodedIsPlain(p.key);
    var key, value := Encode(p.key), Encode(p.value);
    SplitOnceJoined(key, EQUALS, value);
    EncodeThenDecode(p.key);
    EncodeThenDecode(p.value);
    assert PrintPair(p) == key + [EQUALS] + value;
    assert ParsePair(PrintPair(p)) == Pair(Decode(key), Decode(value));
  }

  lemma PairHasNoSeparator(p: Pair)
    ensures AMP !in PrintPair(p)
  {
    EncodedIsPlain(p.key);
    EncodedIsPlain(p.value);
  }

  lemma {:induction false} PairsReadBack(pairs: seq<Pair>)
    ensures ParsePairs(PrintPairs(pairs)) == pairs
    ensures |PrintPairs(pairs)| == |pairs| && forall piece :: piece in PrintPairs(pairs) ==> AMP !in piece
  {
    if pairs == [] {
    } else {
      PairReadsBack(pairs[0]);
      PairHasNoSeparator(pairs[0]);
      PairsReadBack(pairs[1..]);
      var pieces := PrintPairs(pairs);
      assert pieces[0] == PrintPair(pairs[0]) && pieces[1..] == PrintPairs(pairs[1..]);
    }
  }

  /**
   A target built from encoded pairs is split back into exactly its path and its pairs, unless
   there are none: an empty query reads back as one empty pair.
   */
  lemma TargetReadsBack(path: seq<byte>, pairs: seq<Pair>)
    requires QUESTION !in path
    ensures ParseTarget(PrintTarget(path, pairs)) == Target(path, if pairs == [] then [Pair([], [])] else pairs)
  {
    var query := Join(PrintPairs(pairs), [AMP]);
    SplitOnceJoined(path, QUESTION, query);
    PairsReadBack(pairs);
    if pairs == [] {
      assert Split([], AMP) == [[]];
      assert ParsePairs([[]]) == [ParsePair([])] + ParsePairs([]);
    } else {
      SplitJoined(PrintPairs(pairs), AMP);
    }
  }
}
