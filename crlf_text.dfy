/** Text as the split and the insertion write it: every line followed by
    the terminator CR LF. Also the inverse reading of such text, used to
    state what a written file holds line by line. */
module CrlfText {

  /** The terminator appended to every line that is written. */
  const EOL: string := "\r\n"

  /** The text of `lines` written one after another, each followed by EOL. */
  function Terminate(lines: seq<string>): string
    decreases |lines|
  {
    if lines == [] then ""
    else lines[0] + EOL + Terminate(lines[1..])
  }

  /** A line as a line reader delivers it: it holds neither CR nor LF. */
  predicate NoBreak(s: string)
  {
    forall i :: 0 <= i < |s| ==> s[i] != '\r' && s[i] != '\n'
  }

  /** An EOL starts at position `j` of `t`. */
  predicate IsBreakAt(t: string, j: int)
  {
    0 <= j && j + 1 < |t| && t[j] == '\r' && t[j + 1] == '\n'
  }

  /** A text that is empty or ends in EOL. */
  predicate Terminated(t: string)
  {
    t == [] || IsBreakAt(t, |t| - 2)
  }

  /** The position of the first EOL in `t` at or after `from`, or |t| if there is none. */
  function FirstBreak(t: string, from: nat): (k: nat)
    requires from <= |t|
    ensures from <= k <= |t|
    ensures k < |t| ==> IsBreakAt(t, k)
    ensures forall j :: from <= j < k ==> !IsBreakAt(t, j)
    decreases |t| - from
  {
    if from + 1 >= |t| then |t|
    else if IsBreakAt(t, from) then from
    else FirstBreak(t, from + 1)
  }

  /** The lines of a text: the text up to each EOL is one line, and a final
      fragment without EOL is a last line. */
  function LinesOf(t: string): seq<string>
    decreases |t|
  {
    if t == [] then []
    else
      var k := FirstBreak(t, 0);
      if k == |t| then [t] else [t[..k]] + LinesOf(t[k + 2..])
  }

  /** The first EOL is the one at `k` when there is none before it. */
  lemma FirstBreakIs(t: string, k: nat)
    requires k <= |t|
    requires k == |t| || IsBreakAt(t, k)
    requires forall j :: 0 <= j < k ==> !IsBreakAt(t, j)
    ensures FirstBreak(t, 0) == k
  {
  }

  /** Written lines always end the text with EOL. */
  lemma {:induction false} TerminateIsTerminated(lines: seq<string>)
    ensures Terminated(Terminate(lines))
    decreases |lines|
  {
    if lines != [] {
      var first, rest := lines[0] + EOL, Terminate(lines[1..]);
      TerminateIsTerminated(lines[1..]);
      var t := first + rest;
      if rest == [] {
        assert t == first;
      } else {
        assert t[|t| - 2] == rest[|rest| - 2] && t[|t| - 1] == rest[|rest| - 1];
      }
    }
  }

  /** Writing two runs of lines one after the other gives the text of both runs. */
  lemma {:induction false} TerminateAppend(a: seq<string>, b: seq<string>)
    ensures Terminate(a + b) == Terminate(a) + Terminate(b)
    decreases |a|
  {
    if a == [] {
      assert a + b == b;
    } else {
      assert (a + b)[1..] == a[1..] + b;
      TerminateAppend(a[1..], b);
    }
  }

  /** Extending a text that ends in EOL does not move its first EOL. */
  lemma FirstBreakOfExtension(s: string, y: string)
    requires Terminated(s) && s != []
    ensures FirstBreak(s, 0) + 2 <= |s|
    ensures FirstBreak(s + y, 0) == FirstBreak(s, 0)
  {
    var k, t := FirstBreak(s, 0), s + y;
    assert IsBreakAt(s, |s| - 2);
    forall j | 0 <= j < k
      ensures !IsBreakAt(t, j)
    {
      assert !IsBreakAt(s, j);
    }
    assert IsBreakAt(t, k);
    FirstBreakIs(t, k);
  }

  /** Writing one more line adds that line and EOL to the end of the text. */
  lemma TerminateSnoc(lines: seq<string>, x: string)
    ensures Terminate(lines + [x]) == Terminate(lines) + (x + EOL)
  {
    TerminateAppend(lines, [x]);
    assert Terminate([x]) == x + EOL;
  }

  /** Cutting a text that ends in EOL after one of its EOLs leaves a text
      that ends in EOL, and cutting it before or after that EOL commutes
      with extending it. */
  lemma CutAfterBreak(s: string, y: string, k: nat)
    requires Terminated(s) && IsBreakAt(s, k)
    ensures (s + y)[..k] == s[..k]
    ensures (s + y)[k + 2..] == s[k + 2..] + y
    ensures Terminated(s[k + 2..])
  {
    var rest := s[k + 2..];
    if rest != [] {
      assert rest[|rest| - 2] == s[|s| - 2] && rest[|rest| - 1] == s[|s| - 1];
    }
  }

  /** Reading a text whose first part ends in EOL reads the two parts separately. */
  lemma {:induction false} LinesOfAppend(s: string, y: string)
    requires Terminated(s)
    ensures LinesOf(s + y) == LinesOf(s) + LinesOf(y)
    decreases |s|
  {
    if s == [] {
      assert s + y == y;
    } else {
      FirstBreakOfExtension(s, y);
      var k := FirstBreak(s, 0);
      CutAfterBreak(s, y, k);
      LinesOfAppend(s[k + 2..], y);
    }
  }

  /** One line written with its EOL reads back as that line alone. */
  lemma LinesOfLine(l: string)
    requires NoBreak(l)
    ensures LinesOf(l + EOL) == [l]
  {
    var t := l + EOL;
    assert IsBreakAt(t, |l|);
    forall j | 0 <= j < |l|
      ensures !IsBreakAt(t, j)
    {
      assert t[j] == l[j];
    }
    FirstBreakIs(t, |l|);
    assert t[..|l|] == l;
    assert t[|l| + 2..] == [];
  }

  /** Reading back written lines gives exactly those lines: the writer
      drops, merges and splits none of them. */
  lemma {:induction false} LinesOfTerminate(lines: seq<string>)
    requires forall i :: 0 <= i < |lines| ==> NoBreak(lines[i])
    ensures LinesOf(Terminate(lines)) == lines
    decreases |lines|
  {
    if lines != [] {
      var first := lines[0] + EOL;
      assert Terminated(first);
      LinesOfAppend(first, Terminate(lines[1..]));
      LinesOfLine(lines[0]);
      LinesOfTerminate(lines[1..]);
    }
  }
}
