/** Which lines the split sends to the head file and which to the tail
    file. The split walks the lines with a counter that starts at 1 and
    grows by one per line; a line goes to the head exactly when its
    counter is below the target `line`, and to the tail otherwise. */
module LineSplit {

  /** How many of `n` lines have a counter below `line`: min(max(line - 1, 0), n). */
  function HeadLength(n: nat, line: int): nat
  {
    if line <= 1 then 0 else if line - 1 <= n then line - 1 else n
  }

  /** The lines sent to the head file, in order. */
  function HeadOf(lines: seq<string>, line: int): seq<string>
  {
    lines[..HeadLength(|lines|, line)]
  }

  /** The lines sent to the tail file, in order. */
  function TailOf(lines: seq<string>, line: int): seq<string>
  {
    lines[HeadLength(|lines|, line)..]
  }

  /** The line at index i, with counter i + 1, goes to the head when that
      counter is below `line` and to the tail otherwise; the other part
      stays as it was. */
  lemma SplitStep(lines: seq<string>, i: nat, line: int)
    requires i < |lines|
    ensures i + 1 < line ==>
      HeadOf(lines[..i + 1], line) == HeadOf(lines[..i], line) + [lines[i]] &&
      TailOf(lines[..i + 1], line) == TailOf(lines[..i], line)
    ensures line <= i + 1 ==>
      HeadOf(lines[..i + 1], line) == HeadOf(lines[..i], line) &&
      TailOf(lines[..i + 1], line) == TailOf(lines[..i], line) + [lines[i]]
  {
    var k := HeadLength(i, line);
    if i + 1 < line {
      assert HeadLength(i + 1, line) == k + 1;
      assert lines[..i + 1][..k + 1] == lines[..i][..k] + [lines[i]];
    } else {
      assert HeadLength(i + 1, line) == k;
      assert lines[..i + 1][..k] == lines[..i][..k];
      assert lines[..i + 1][k..] == lines[..i][k..] + [lines[i]];
    }
  }

  /** Round trip: the head followed by the tail is the original, in order,
      with nothing dropped or duplicated. */
  lemma SplitRoundTrip(lines: seq<string>, line: int)
    ensures HeadOf(lines, line) + TailOf(lines, line) == lines
  {
  }

  /** Line number i + 1 (at index i) lands in the head, at the same index,
      exactly when i + 1 < line; otherwise it lands in the tail, right
      after the head. */
  lemma CounterRule(lines: seq<string>, line: int)
    ensures forall i :: 0 <= i < |lines| ==>
      if i + 1 < line then
        i < |HeadOf(lines, line)| && HeadOf(lines, line)[i] == lines[i]
      else
        |HeadOf(lines, line)| <= i < |HeadOf(lines, line)| + |TailOf(lines, line)| &&
        TailOf(lines, line)[i - |HeadOf(lines, line)|] == lines[i]
  {
    var h, t := HeadOf(lines, line), TailOf(lines, line);
    forall i | 0 <= i < |lines|
      ensures if i + 1 < line then i < |h| && h[i] == lines[i]
              else |h| <= i < |h| + |t| && t[i - |h|] == lines[i]
    {
      if i + 1 < line {
        assert i < HeadLength(|lines|, line);
      } else {
        assert HeadLength(|lines|, line) <= i;
      }
    }
  }

  /** Sizes and edge cases: a target line of 1 or below gives an empty head,
      a target past the last line gives an empty tail, an empty source
      gives two empty parts. */
  lemma SplitSizes(lines: seq<string>, line: int)
    ensures |HeadOf(lines, line)| + |TailOf(lines, line)| == |lines|
    ensures 1 <= line <= |lines| + 1 ==> |HeadOf(lines, line)| == line - 1
    ensures line <= 1 ==> HeadOf(lines, line) == [] && TailOf(lines, line) == lines
    ensures |lines| < line ==> HeadOf(lines, line) == lines && TailOf(lines, line) == []
    ensures lines == [] ==> HeadOf(lines, line) == [] && TailOf(lines, line) == []
  {
  }
}
