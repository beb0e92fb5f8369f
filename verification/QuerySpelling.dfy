/**
 Every spelling a decoded query component can have (src/api.rs, `decode_query_component`; RFC 3986
 section 2.1): what decoding gives, for every byte string, in terms of how its bytes are spelled.
 */
module QuerySpelling {
  import opened Bytes
  import opened PercentCodec

  const UPPER: seq<byte> := Ascii("0123456789ABCDEF")
  const LOWER: seq<byte> := Ascii("0123456789abcdef")

  /** The characters section 2.3 of RFC 3986 leaves alone. */
  predicate Plain(c: char) {
    'A' <= c <= 'Z' || 'a' <= c <= 'z' || '0' <= c <= '9' || c in "-._~"
  }

  /** A byte is encoded as itself exactly when it is one of them, and else as an escape in capitals. */
  lemma EncodesExactly(b: byte)
    ensures EncodeByte(b) == if Plain(b as char) then [b] else [PERCENT, UPPER[b / 16], UPPER[b % 16]]
  {
    HexOfDigit(b / 16);
    HexOfDigit(b % 16);
  }

  /** A hexadecimal digit, in either case. */
  predicate SpellsDigit(c: byte, d: nat) {
    d < 16 && (UPPER[d] == c || LOWER[d] == c)
  }

  predicate SpellsByte(high: byte, low: byte, b: byte) {
    SpellsDigit(high, b / 16) && SpellsDigit(low, b % 16)
  }

  predicate IsHexDigit(c: byte) {
    c in UPPER || c in LOWER
  }

  /** The percent sign at the front does not begin an escape. */
  predicate StrayPercent(s: seq<byte>) {
    s != [] && s[0] == PERCENT && (|s| < 3 || !IsHexDigit(s[1]) || !IsHexDigit(s[2]))
  }

  /**
   How the bytes `b` can be spelled: each as an escape in either case, a space as a plus, and
   every byte but those two signs as itself, as is a percent sign that begins no escape.
   */
  predicate Spells(s: seq<byte>, b: seq<byte>)
    decreases |b|
  {
    if b == [] then s == []
    else
      || (s != [] && s[0] == b[0] && s[0] != PERCENT && s[0] != PLUS && Spells(s[1..], b[1..]))
      || (s != [] && s[0] == PLUS && b[0] == SPACE && Spells(s[1..], b[1..]))
      || (StrayPercent(s) && b[0] == PERCENT && Spells(s[1..], b[1..]))
      || (|s| >= 3 && s[0] == PERCENT && SpellsByte(s[1], s[2], b[0]) && Spells(s[3..], b[1..]))
  }

  lemma HexValueIsDigit(c: byte)
    ensures HexValue(c).Some? <==> IsHexDigit(c)
    ensures forall d :: SpellsDigit(c, d) <==> HexValue(c).Some? && HexValue(c).value == d
  {
    forall d | SpellsDigit(c, d) ensures HexValue(c).Some? && HexValue(c).value == d && IsHexDigit(c) {
      HexOfDigit(d);
    }
    if HexValue(c).Some? {
      HexOfDigit(HexValue(c).value);
    }
    if IsHexDigit(c) {
      if c in UPPER {
        var d :| 0 <= d < 16 && UPPER[d] == c;
        assert SpellsDigit(c, d);
      } else {
        var d :| 0 <= d < 16 && LOWER[d] == c;
        assert SpellsDigit(c, d);
      }
    }
  }

  lemma HexOfDigit(d: nat)
    requires d < 16
    ensures UPPER[d] == (if d < 10 then 48 + d else 55 + d) && LOWER[d] == (if d < 10 then 48 + d else 87 + d)
  {
    assert "0123456789ABCDEF"[d] as int == if d < 10 then 48 + d else 55 + d;
    assert "0123456789abcdef"[d] as int == if d < 10 then 48 + d else 87 + d;
  }

  lemma ByteOfDigits(high: byte, low: byte, b: byte)
    ensures SpellsByte(high, low, b)
            <==> HexValue(high).Some? && HexValue(low).Some? && HexValue(high).value * 16 + HexValue(low).value == b
  {
    HexValueIsDigit(high);
    HexValueIsDigit(low);
  }

  /** Decoding gives exactly the bytes that are spelled, so every string spells one byte string. */
  lemma {:induction false} DecodesExactly(s: seq<byte>, b: seq<byte>)
    ensures Decode(s) == b <==> Spells(s, b)
    decreases |s|
  {
    if s == [] || b == [] {
    } else {
      if |s| >= 3 {
        HexValueIsDigit(s[1]);
        HexValueIsDigit(s[2]);
        ByteOfDigits(s[1], s[2], b[0]);
        DecodesExactly(s[3..], b[1..]);
      }
      DecodesExactly(s[1..], b[1..]);
      assert b == [b[0]] + b[1..];
    }
  }
}
