/**
 What the text handling of the HTTP code takes apart (src/api.rs): white space, words, lines and
 numbers, each stated by the strings it accepts.
 */
module TextPieces {
  import opened Wrappers
  import opened Bytes
  import Decimal

  /** White space is the space, and the control characters from tab to carriage return. */
  lemma SpacesExactly(b: byte)
    ensures IsSpace(b) <==> b as char in " \t\n\U{0B}\U{0C}\r"
  {
  }

  predicate AllSpace(s: seq<byte>) { forall i :: 0 <= i < |s| ==> IsSpace(s[i]) }

  /** The string begins and ends with something else than white space, or is empty. */
  predicate Trimmed(s: seq<byte>) {
    s == [] || (!IsSpace(s[0]) && !IsSpace(s[|s| - 1]))
  }

  /** The string is `core` with white space around it. */
  ghost predicate Padded(s: seq<byte>, core: seq<byte>) {
    exists before, after :: AllSpace(before) && AllSpace(after) && s == before + core + after
  }

  lemma {:induction false} TrimStartSplits(s: seq<byte>) returns (before: seq<byte>)
    ensures AllSpace(before) && s == before + TrimStart(s)
    ensures TrimStart(s) == [] || !IsSpace(TrimStart(s)[0])
  {
    if s == [] || !IsSpace(s[0]) {
      before := [];
    } else {
      before := TrimStartSplits(s[1..]);
      before := [s[0]] + before;
    }
  }

  lemma {:induction false} TrimEndSplits(s: seq<byte>) returns (after: seq<byte>)
    ensures AllSpace(after) && s == TrimEnd(s) + after
    ensures TrimEnd(s) == [] || !IsSpace(TrimEnd(s)[|TrimEnd(s)| - 1])
  {
    if s == [] || !IsSpace(s[|s| - 1]) {
      after := [];
    } else {
      after := TrimEndSplits(s[..|s| - 1]);
      after := after + [s[|s| - 1]];
    }
  }

  /** Trimming takes the white space at both ends, and nothing else. */
  lemma TrimsExactly(s: seq<byte>)
    ensures Padded(s, Trim(s)) && Trimmed(Trim(s))
  {
    var before := TrimStartSplits(s);
    var after := TrimEndSplits(TrimStart(s));
    assert s == before + Trim(s) + after;
    if Trim(s) != [] {
      assert TrimStart(s)[0] == Trim(s)[0];
    }
  }

  /** White space in front of a text adds no word, whatever kind it is. */
  lemma SpaceIsSkipped(b: byte, rest: seq<byte>)
    requires IsSpace(b)
    ensures Words([b] + rest) == Words(rest)
  {
    assert ([b] + rest)[1..] == rest;
  }

  /** A word ends at the first white space, whatever kind it is, or at the end. */
  lemma {:induction false} WordIsTaken(w: seq<byte>, b: byte, rest: seq<byte>)
    requires IsWord(w) && IsSpace(b)
    ensures Words(w) == [w] && Words(w + [b] + rest) == [w] + Words(rest)
  {
    var s := w + [b] + rest;
    assert w[0] in w && s[0] == w[0];
    if |w| == 1 {
      assert s[1..] == [b] + rest && s[1] == b;
      SpaceIsSkipped(b, rest);
      assert w == [w[0]] && w[1..] == [];
    } else {
      assert s[1..] == w[1..] + [b] + rest;
      assert forall x :: x in w[1..] ==> x in w;
      assert w[1] in w && s[1] == w[1];
      WordIsTaken(w[1..], b, rest);
      assert [w[0]] + w[1..] == w;
    }
  }

  /** A line ends at an LF, or at a CR and an LF; the rest of the text follows. */
  lemma LineIsTaken(line: seq<byte>, rest: seq<byte>)
    requires LF !in line
    ensures Lines(line + [CR, LF] + rest) == [line] + Lines(rest)
    ensures line == [] || line[|line| - 1] != CR ==> Lines(line + [LF] + rest) == [line] + Lines(rest)
  {
    var ended := line + [CR];
    SplitFirst(ended, LF, rest);
    assert line + [CR, LF] + rest == ended + [LF] + rest;
    assert ([ended] + Split(rest, LF))[1..] == Split(rest, LF);
    SplitFirst(line, LF, rest);
    assert ([line] + Split(rest, LF))[1..] == Split(rest, LF);
    assert StripCR(ended) == line;
  }

  /** A last line that nothing ends is a line as it stands, unless it is empty. */
  lemma LastLineIsTaken(line: seq<byte>)
    requires LF !in line
    ensures Lines(line) == if line == [] then [] else [line]
  {
    SplitFirst(line, LF, []);
  }

  // ----- numbers -----

  /** The text is this number in digits, leading zeros allowed. */
  ghost predicate Writes(t: string, n: nat) {
    t != "" && Decimal.AllDigits(t) && Decimal.Value(t) == n
  }

  /** The bytes are this number, perhaps behind a plus sign. */
  ghost predicate IsNumber(s: seq<byte>, n: nat) {
    Writes(ToText(s), n) || (s != [] && s[0] == PLUS && Writes(ToText(s[1..]), n))
  }

  /** Exactly the numbers up to the limit are read, with a plus sign allowed in front. */
  lemma NumbersReadExactly(s: seq<byte>, max: nat, n: nat)
    ensures ParseUnsigned(s, max) == Some(n) <==> n <= max && IsNumber(s, n)
  {
    if s != [] && s[0] == PLUS {
      assert ToText(s)[0] == '+';
      assert !Decimal.IsDigit('+');
    }
  }

  /** A zero in front changes nothing. */
  lemma {:induction false} LeadingZero(t: string, n: nat)
    requires Writes(t, n)
    ensures Writes("0" + t, n)
  {
    var s := "0" + t;
    assert s[..|s| - 1] == "0" + t[..|t| - 1] && s[|s| - 1] == t[|t| - 1];
    if |t| == 1 {
      assert s[..1] == "0" && "0"[..0] == "";
      assert t[..0] == "";
    } else {
      LeadingZero(t[..|t| - 1], Decimal.Value(t[..|t| - 1]));
    }
  }

  /** The printed numeral of a number writes it. */
  lemma NumeralWrites(n: nat)
    ensures Writes(Decimal.Print(n), n)
  {
    Decimal.PrintThenRead(n);
  }
}
