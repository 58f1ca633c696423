/** What the insertion leaves at the target path: the head file, then the
    content block (the content followed by one EOL), then the tail file. */
module LineInsert {
  import opened CrlfText
  import opened LineSplit

  /** The file's lines after inserting `content` before line number `line`. */
  function InsertedLines(lines: seq<string>, line: int, content: string): seq<string>
  {
    HeadOf(lines, line) + [content] + TailOf(lines, line)
  }

  /** The text written to the target path: head, content block, tail. */
  function InsertedText(lines: seq<string>, line: int, content: string): string
  {
    Terminate(HeadOf(lines, line)) + (content + EOL) + Terminate(TailOf(lines, line))
  }

  /** For 1 <= line <= n + 1 the content lands at index line - 1, right before
      what was line number `line`, and everything else keeps its order. */
  lemma InsertAtLine(lines: seq<string>, line: int, content: string)
    requires 1 <= line <= |lines| + 1
    ensures InsertedLines(lines, line, content) == lines[..line - 1] + [content] + lines[line - 1..]
    ensures InsertedLines(lines, line, content)[line - 1] == content
    ensures InsertedText(lines, line, content)
         == Terminate(lines[..line - 1]) + (content + EOL) + Terminate(lines[line - 1..])
  {
    SplitSizes(lines, line);
  }

  /** A target line of 1 or below prepends the content; a target past the
      last line appends it. */
  lemma InsertAtEdges(lines: seq<string>, line: int, content: string)
    ensures line <= 1 ==> InsertedLines(lines, line, content) == [content] + lines
    ensures |lines| < line ==> InsertedLines(lines, line, content) == lines + [content]
  {
    assert lines[0..] == lines;
    assert lines[..|lines|] == lines;
  }

  /** With a target line of 1 or below, the written text is the content
      block followed by the original lines' text. */
  lemma InsertedTextAtStart(lines: seq<string>, line: int, content: string)
    requires line <= 1
    ensures InsertedText(lines, line, content) == (content + EOL) + Terminate(lines)
  {
    var h, t := HeadOf(lines, line), TailOf(lines, line);
    assert h == [] && t == lines by {
      assert lines[0..] == lines;
    }
    var e := Terminate(h);
    assert e == "";
  }

  /** With a target line past the last line, the written text is the
      original lines' text followed by the content block. */
  lemma InsertedTextAtEnd(lines: seq<string>, line: int, content: string)
    requires |lines| < line
    ensures InsertedText(lines, line, content) == Terminate(lines) + (content + EOL)
  {
    var h, t := HeadOf(lines, line), TailOf(lines, line);
    assert h == lines && t == [] by {
      assert lines[..|lines|] == lines;
    }
    var e := Terminate(t);
    assert e == "";
  }

  /** The content block is written verbatim, right after the head's text, and
      cutting it out again leaves the original lines' text. */
  lemma InsertKeepsText(lines: seq<string>, line: int, content: string)
    ensures var t, h := InsertedText(lines, line, content), |Terminate(HeadOf(lines, line))|;
      && t[h..h + |content|] == content
      && t[h + |content|..h + |content| + 2] == EOL
      && t[..h] + t[h + |content| + 2..] == Terminate(lines)
  {
    var head, tail := Terminate(HeadOf(lines, line)), Terminate(TailOf(lines, line));
    var t := InsertedText(lines, line, content);
    var h := |head|;
    assert t == head + (content + EOL) + tail;
    assert t[h..h + |content|] == content;
    assert t[h + |content|..h + |content| + 2] == EOL;
    assert t[..h] == head;
    assert t[h + |content| + 2..] == tail;
    SplitRoundTrip(lines, line);
    TerminateAppend(HeadOf(lines, line), TailOf(lines, line));
  }

  /** Reading the written file back: the head lines, the lines of the content
      block, then the tail lines. A content without line breaks reads back as
      the single line it is. */
  lemma InsertedTextReadsBack(lines: seq<string>, line: int, content: string)
    requires forall i :: 0 <= i < |lines| ==> NoBreak(lines[i])
    ensures LinesOf(InsertedText(lines, line, content))
         == HeadOf(lines, line) + LinesOf(content + EOL) + TailOf(lines, line)
    ensures NoBreak(content) ==>
              LinesOf(InsertedText(lines, line, content)) == InsertedLines(lines, line, content)
  {
    var h, b, t := HeadOf(lines, line), content + EOL, TailOf(lines, line);
    assert forall i :: 0 <= i < |h| ==> NoBreak(h[i]) by {
      assert forall i :: 0 <= i < |h| ==> h[i] == lines[i];
    }
    assert forall i :: 0 <= i < |t| ==> NoBreak(t[i]) by {
      assert forall i :: 0 <= i < |t| ==> t[i] == lines[|h| + i];
    }
    assert Terminated(b) by {
      assert b[|b| - 2] == '\r' && b[|b| - 1] == '\n';
    }
    assert LinesOf(Terminate(h) + (b + Terminate(t))) == h + (LinesOf(b) + t) by {
      TerminateIsTerminated(h);
      LinesOfAppend(Terminate(h), b + Terminate(t));
      LinesOfAppend(b, Terminate(t));
      LinesOfTerminate(h);
      LinesOfTerminate(t);
    }
    assert InsertedText(lines, line, content) == Terminate(h) + (b + Terminate(t));
    if NoBreak(content) {
      LinesOfLine(content);
    }
  }

  /** Inserting into the lines twice leaves two copies side by side. */
  lemma InsertLinesTwice(lines: seq<string>, line: int, content: string)
    ensures InsertedLines(InsertedLines(lines, line, content), line, content)
         == HeadOf(lines, line) + [content, content] + TailOf(lines, line)
  {
    var once := InsertedLines(lines, line, content);
    SplitSizes(lines, line);
    SplitSizes(once, line);
    var k := HeadLength(|lines|, line);
    var h, t := lines[..k], lines[k..];
    assert once == h + [content] + t;
    var k' := if |lines| < line - 1 then k + 1 else k;
    assert HeadLength(|once|, line) == k';
    if |lines| < line - 1 {
      assert t == [];
      assert once[..k'] == h + [content];
      assert once[k'..] == [];
    } else {
      assert once[..k'] == h;
      assert once[k'..] == [content] + t;
    }
  }

  /** Insertion is not idempotent: a second insertion of the same single-line
      content at the same line, made on the file as the first one left it and
      read back at its EOLs, leaves two copies of it, side by side. */
  lemma InsertTwice(lines: seq<string>, line: int, content: string)
    requires NoBreak(content)
    requires forall i :: 0 <= i < |lines| ==> NoBreak(lines[i])
    ensures InsertedLines(LinesOf(InsertedText(lines, line, content)), line, content)
         == HeadOf(lines, line) + [content, content] + TailOf(lines, line)
  {
    InsertedTextReadsBack(lines, line, content);
    InsertLinesTwice(lines, line, content);
  }

  /** Three single-character lines written with EOL read back as themselves. */
  lemma ReadBackThree()
    ensures LinesOf("A\r\nP\r\nQ\r\n") == ["A", "P", "Q"]
  {
    var read := ["A", "P", "Q"];
    assert Terminate(read) == "A\r\nP\r\nQ\r\n" by {
      assert read[1..] == ["P", "Q"] && read[1..][1..] == ["Q"] && read[1..][1..][1..] == [];
    }
    assert NoBreak(read[0]) && NoBreak(read[1]) && NoBreak(read[2]);
    LinesOfTerminate(read);
  }

  /** With content that holds an EOL the first copy reads back as several
      lines, so a second insertion past the end lands inside the first copy:
      one line A, content "P" EOL "Q" inserted at line 3 twice. */
  lemma InsertTwiceMultiLine()
    ensures InsertedText(["A"], 3, "P\r\nQ") == "A\r\nP\r\nQ\r\n"
    ensures LinesOf(InsertedText(["A"], 3, "P\r\nQ")) == ["A", "P", "Q"]
    ensures InsertedText(["A", "P", "Q"], 3, "P\r\nQ") == "A\r\nP\r\nP\r\nQ\r\nQ\r\n"
  {
    SplitSizes(["A"], 3);
    SplitSizes(["A", "P", "Q"], 3);
    ReadBackThree();
  }

  /** Three lines A, B, C with X inserted before line 2. */
  lemma InsertScenarioMiddle()
    ensures InsertedLines(["A", "B", "C"], 2, "X") == ["A", "X", "B", "C"]
    ensures InsertedText(["A", "B", "C"], 2, "X") == "A\r\nX\r\nB\r\nC\r\n"
  {
    SplitSizes(["A", "B", "C"], 2);
  }

  /** An empty file with X inserted before line 1. */
  lemma InsertScenarioEmpty()
    ensures InsertedLines([], 1, "X") == ["X"]
    ensures InsertedText([], 1, "X") == "X\r\n"
  {
  }
}
