/** A block of header lines, each ended by CRLF, and the blank line behind it. */
module HeaderBlock {
  import opened Wrappers
  import opened Bytes
  import opened RequestReader

  /** The lines, each with its CRLF. */
  function Ended(lines: seq<seq<byte>>): seq<byte> {
    if lines == [] then [] else lines[0] + CRLF + Ended(lines[1..])
  }

  function HeaderLine(name: seq<byte>, value: seq<byte>): seq<byte> {
    name + [COLON, SPACE] + value
  }

  /** No CR directly followed by LF. */
  predicate PairFree(s: seq<byte>) {
    forall i :: 0 <= i < |s| - 1 ==> !(s[i] == CR && s[i + 1] == LF)
  }

  lemma {:induction false} EndedAppend(a: seq<seq<byte>>, b: seq<seq<byte>>)
    ensures Ended(a + b) == Ended(a) + Ended(b)
  {
    if a == [] {
      assert a + b == b;
    } else {
      EndedAppend(a[1..], b);
      assert (a + b)[0] == a[0] && (a + b)[1..] == a[1..] + b;
    }
  }

  lemma {:induction false} EndedIsJoined(lines: seq<seq<byte>>)
    requires lines != []
    ensures Ended(lines) == Join(lines, CRLF) + CRLF
  {
    if |lines| == 1 {
      assert Ended(lines[1..]) == [];
    } else {
      EndedIsJoined(lines[1..]);
    }
  }

  /** Past a pair-free line, the first blank line is where the rest has it. */
  lemma {:induction false} BlankPastLine(line: seq<byte>, rest: seq<byte>)
    requires PairFree(line) && |rest| >= 2
    ensures FindBlank(line + CRLF + rest)
         == if rest[0] == CR && rest[1] == LF then Some(|line|)
            else match FindBlank(rest) case Some(k) => Some(|line| + 2 + k) case None => None
  {
    var s := line + CRLF + rest;
    if line == [] {
      assert s == CRLF + rest;
      assert s[1..] == [LF] + rest && s[1..][1..] == rest;
    } else {
      assert |line| > 1 ==> !(line[0] == CR && line[1] == LF);
      assert !BlankAt(s, 0);
      assert forall i :: 0 <= i < |line[1..]| ==> line[1..][i] == line[i + 1];
      BlankPastLine(line[1..], rest);
      assert s[1..] == line[1..] + CRLF + rest;
    }
  }

  /**
   The first blank line of a message is the one behind its header block, whatever the body
   holds, when no header line is empty or holds a CRLF.
   */
  lemma {:induction false} BlankEndsBlock(lines: seq<seq<byte>>, body: seq<byte>)
    requires lines != [] && forall l :: l in lines ==> l != [] && PairFree(l)
    ensures FindBlank(Ended(lines) + CRLF + body) == Some(|Ended(lines)| - 2)
  {
    assert lines[0] in lines;
    var rest := Ended(lines[1..]) + CRLF + body;
    assert Ended(lines) + CRLF + body == lines[0] + CRLF + rest;
    BlankPastLine(lines[0], rest);
    if |lines| == 1 {
      assert Ended(lines[1..]) == [];
    } else {
      assert forall l :: l in lines[1..] ==> l in lines;
      assert lines[1] in lines;
      BlankEndsBlock(lines[1..], body);
      assert rest[0] == lines[1][0];
      assert |lines[1]| > 1 ==> rest[1] == lines[1][1];
    }
  }

  /** Cut at that blank line, a message falls into its lines, joined, and its body. */
  lemma BlockFallsApart(lines: seq<seq<byte>>, body: seq<byte>)
    requires lines != []
    ensures var s := Ended(lines) + CRLF + body;
            && 2 <= |Ended(lines)|
            && s[..|Ended(lines)| - 2] == Join(lines, CRLF)
            && s[|Ended(lines)| + 2..] == body
  {
    EndedIsJoined(lines);
  }
}
