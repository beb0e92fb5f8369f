/** Byte strings, and the pieces of text handling the HTTP code is built from. */
module Bytes {
  import opened Wrappers
  import Decimal

  type byte = x: int | 0 <= x < 256

  predicate IsAscii(s: string) { forall i :: 0 <= i < |s| ==> s[i] < 128 as char }

  function Ascii(s: string): (b: seq<byte>)
    requires IsAscii(s)
    ensures |b| == |s| && forall i :: 0 <= i < |s| ==> b[i] == s[i] as int
  {
    seq(|s|, i requires 0 <= i < |s| => s[i] as int)
  }

  const CR: byte := 13
  const LF: byte := 10
  const SPACE: byte := 32
  const COLON: byte := 58

  /** ASCII white space, as `split_whitespace` and `trim` see it in ASCII text. */
  predicate IsSpace(b: byte) { b == 32 || 9 <= b <= 13 }

  // ----- splitting -----

  /** The parts between separators; always at least one. */
  function Split(s: seq<byte>, sep: byte): (parts: seq<seq<byte>>)
    ensures |parts| > 0
  {
    if s == [] then [[]]
    else
      var rest := Split(s[1..], sep);
      if s[0] == sep then [[]] + rest else [[s[0]] + rest[0]] + rest[1..]
  }

  function Join(parts: seq<seq<byte>>, sep: seq<byte>): seq<byte> {
    if parts == [] then []
    else if |parts| == 1 then parts[0]
    else parts[0] + sep + Join(parts[1..], sep)
  }

  datatype Halves = Halves(before: seq<byte>, after: seq<byte>)

  /** The parts before and after the first separator, or `None` without one. */
  function SplitOnce(s: seq<byte>, sep: byte): Option<Halves> {
    if s == [] then None
    else if s[0] == sep then Some(Halves([], s[1..]))
    else
      match SplitOnce(s[1..], sep)
      case Some(h) => Some(Halves([s[0]] + h.before, h.after))
      case None => None
  }

  lemma {:induction false} SplitOnceJoined(before: seq<byte>, sep: byte, after: seq<byte>)
    requires sep !in before
    ensures SplitOnce(before + [sep] + after, sep) == Some(Halves(before, after))
    ensures SplitOnce(before, sep) == None
  {
    var s := before + [sep] + after;
    if before == [] {
      assert s[1..] == after;
    } else {
      assert s[1..] == before[1..] + [sep] + after;
      assert before[0] in before && forall b :: b in before[1..] ==> b in before;
      SplitOnceJoined(before[1..], sep, after);
      assert [before[0]] + before[1..] == before;
    }
  }

  /** A part without separators in front of a separator is the first part. */
  lemma {:induction false} SplitFirst(part: seq<byte>, sep: byte, rest: seq<byte>)
    requires sep !in part
    ensures Split(part, sep) == [part]
    ensures Split(part + [sep] + rest, sep) == [part] + Split(rest, sep)
  {
    var s := part + [sep] + rest;
    if part == [] {
      assert s[1..] == rest;
    } else {
      assert s[1..] == part[1..] + [sep] + rest;
      assert part[0] in part && forall b :: b in part[1..] ==> b in part;
      SplitFirst(part[1..], sep, rest);
      assert [part[0]] + part[1..] == part;
    }
  }

  lemma {:induction false} SplitJoined(parts: seq<seq<byte>>, sep: byte)
    requires parts != [] && forall p :: p in parts ==> sep !in p
    ensures Split(Join(parts, [sep]), sep) == parts
  {
    assert parts[0] in parts;
    if |parts| == 1 {
      SplitFirst(parts[0], sep, []);
    } else {
      assert forall p :: p in parts[1..] ==> p in parts;
      SplitJoined(parts[1..], sep);
      SplitFirst(parts[0], sep, Join(parts[1..], [sep]));
    }
  }

  // ----- lines and words -----

  function StripCR(line: seq<byte>): seq<byte> {
    if line != [] && line[|line| - 1] == CR then line[..|line| - 1] else line
  }

  /** The lines of a text: ended by LF or CRLF; what follows the last end is a line unless empty. */
  function Lines(s: seq<byte>): seq<seq<byte>> {
    EndedLines(Split(s, LF))
  }

  /** Every part but the last was ended by an LF. */
  function EndedLines(parts: seq<seq<byte>>): seq<seq<byte>> {
    if parts == [] then []
    else if |parts| == 1 then (if parts[0] == [] then [] else parts)
    else [StripCR(parts[0])] + EndedLines(parts[1..])
  }

  lemma {:induction false} FirstLine(line: seq<byte>, rest: seq<byte>)
    requires LF !in line && (line == [] || line[|line| - 1] != CR)
    ensures Lines(line + [CR, LF] + rest) == [line] + Lines(rest)
  {
    var ended := line + [CR];
    SplitFirst(ended, LF, rest);
    assert line + [CR, LF] + rest == ended + [LF] + rest;
    var parts := Split(line + [CR, LF] + rest, LF);
    assert parts[1..] == Split(rest, LF);
    assert StripCR(ended) == line;
  }

  /** A line text: no LF, no CR at the end, not empty. */
  predicate IsLine(line: seq<byte>) {
    line != [] && LF !in line && line[|line| - 1] != CR
  }

  lemma {:induction false} LinesJoined(lines: seq<seq<byte>>)
    requires lines != [] && forall l :: l in lines ==> IsLine(l)
    ensures Lines(Join(lines, [CR, LF])) == lines
  {
    assert IsLine(lines[0]);
    if |lines| == 1 {
      SplitFirst(lines[0], LF, []);
    } else {
      assert forall l :: l in lines[1..] ==> l in lines;
      LinesJoined(lines[1..]);
      FirstLine(lines[0], Join(lines[1..], [CR, LF]));
    }
  }

  /** The maximal runs of non-space bytes. */
  function Words(s: seq<byte>): (words: seq<seq<byte>>)
    ensures s != [] && !IsSpace(s[0]) ==> words != []
  {
    if s == [] then []
    else
      var rest := Words(s[1..]);
      if IsSpace(s[0]) then rest
      else if |s| == 1 || IsSpace(s[1]) then [[s[0]]] + rest
      else [[s[0]] + rest[0]] + rest[1..]
  }

  predicate IsWord(w: seq<byte>) {
    w != [] && forall b :: b in w ==> !IsSpace(b)
  }

  lemma {:induction false} FirstWord(w: seq<byte>, rest: seq<byte>)
    requires IsWord(w)
    ensures Words(w) == [w]
    ensures Words(w + [SPACE] + rest) == [w] + Words(rest)
  {
    var s := w + [SPACE] + rest;
    assert w[0] in w && !IsSpace(s[0]);
    if |w| == 1 {
      assert s[1..] == [SPACE] + rest && s[1..][1..] == rest;
      assert w == [w[0]] && w[1..] == [];
    } else {
      assert s[1..] == w[1..] + [SPACE] + rest;
      assert forall b :: b in w[1..] ==> b in w;
      assert w[1] in w && s[1] == w[1];
      FirstWord(w[1..], rest);
      assert [w[0]] + w[1..] == w;
    }
  }

  function TrimStart(s: seq<byte>): seq<byte> {
    if s != [] && IsSpace(s[0]) then TrimStart(s[1..]) else s
  }

  function TrimEnd(s: seq<byte>): seq<byte> {
    if s != [] && IsSpace(s[|s| - 1]) then TrimEnd(s[..|s| - 1]) else s
  }

  function Trim(s: seq<byte>): seq<byte> { TrimEnd(TrimStart(s)) }

  // ----- numbers -----

  function ToText(s: seq<byte>): (t: string)
    ensures |t| == |s| && forall i :: 0 <= i < |s| ==> t[i] == s[i] as char
  {
    seq(|s|, i requires 0 <= i < |s| => s[i] as char)
  }

  lemma DigitsAreAscii(t: string)
    requires Decimal.AllDigits(t)
    ensures IsAscii(t)
  {
    forall i | 0 <= i < |t| ensures t[i] < 128 as char {
      assert Decimal.IsDigit(t[i]);
    }
  }

  function Numeral(n: nat): seq<byte> {
    DigitsAreAscii(Decimal.Print(n));
    Ascii(Decimal.Print(n))
  }

  const PLUS: byte := 43

  /** The value of an unsigned decimal up to `max`, with an optional leading plus sign. */
  function ParseUnsigned(s: seq<byte>, max: nat): Option<nat> {
    var digits := ToText(if s != [] && s[0] == PLUS then s[1..] else s);
    if digits == [] || !Decimal.AllDigits(digits) || Decimal.Value(digits) > max then None
    else Some(Decimal.Value(digits))
  }

  lemma NumeralReadsBack(n: nat, max: nat)
    requires n <= max
    ensures ParseUnsigned(Numeral(n), max) == Some(n)
    ensures IsWord(Numeral(n)) && forall b :: b in Numeral(n) ==> 48 <= b <= 57
  {
    var t := Decimal.Print(n);
    DigitsAreAscii(t);
    assert forall i :: 0 <= i < |t| ==> Decimal.IsDigit(t[i]);
    assert ToText(Numeral(n)) == t;
    Decimal.PrintThenRead(n);
  }
}
