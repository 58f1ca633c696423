/** The line-targeted insertion of utils.js over a store of files: the
    split into `-head` and `-tail` temporary files, and the insertion that
    rewrites the original file from them and removes them again. */
module Utils {
  import opened CrlfText
  import opened LineSplit
  import opened LineInsert

  /** Where the split keeps the lines before the target line. */
  function HeadPath(path: string): string
  {
    path + "-head"
  }

  /** Where the split keeps the lines from the target line on. */
  function TailPath(path: string): string
  {
    path + "-tail"
  }

  /** The temporary paths never coincide with the source path nor with each
      other, and each determines the source path it was made from. */
  lemma TempPathsDistinct(path: string, other: string)
    ensures HeadPath(path) != path && TailPath(path) != path
    ensures HeadPath(path) != TailPath(other)
    ensures HeadPath(path) == HeadPath(other) ==> path == other
    ensures TailPath(path) == TailPath(other) ==> path == other
  {
    var h, t := HeadPath(path), TailPath(other);
    assert h[|h| - 1] == 'd' && t[|t| - 1] == 'l';
    if HeadPath(path) == HeadPath(other) {
      assert path == HeadPath(path)[..|path|] == HeadPath(other)[..|other|] == other;
    }
    if TailPath(path) == TailPath(other) {
      assert path == TailPath(path)[..|path|] == TailPath(other)[..|other|] == other;
    }
  }

  /** Files written and then deleted again leave no trace beside the one
      file that was rewritten. */
  lemma WritesOnlyPath(m: map<string, string>, hp: string, tp: string, hv: string, tv: string,
                       p: string, x: string)
    requires p != hp && p != tp
    ensures m[hp := hv][tp := tv][p := x] - {hp} - {tp} == m[p := x] - {hp, tp}
  {
  }

  /** The store after an insertion at `path` differs from the store before
      only at `path` and at its two temporary paths: every other file is
      there exactly when it was before, with the same contents. */
  lemma InsertChangesOnlyItsPaths(m: map<string, string>, path: string, x: string)
    ensures var r := m[path := x] - {HeadPath(path), TailPath(path)};
      && path in r && r[path] == x
      && HeadPath(path) !in r && TailPath(path) !in r
      && forall q :: q != path && q != HeadPath(path) && q != TailPath(path) ==>
           (q in r <==> q in m) && (q in r ==> r[q] == m[q])
  {
    TempPathsDistinct(path, path);
  }

  /** A file system as a map from paths to file contents. */
  class FileStore {
    var files: map<string, string>

    constructor (initial: map<string, string>)
      ensures files == initial
    {
      files := initial;
    }

    /** Opens `p` for writing: the file is created, or emptied if it exists. */
    method Truncate(p: string)
      modifies this
      ensures files == old(files)[p := ""]
    {
      files := files[p := ""];
    }

    /** Writes `data` to the end of the open file `p`. */
    method Append(p: string, data: string)
      requires p in files
      modifies this
      ensures files == old(files)[p := old(files)[p] + data]
    {
      files := files[p := files[p] + data];
    }

    /** Deletes the file `p`. */
    method Unlink(p: string)
      requires p in files
      modifies this
      ensures files == old(files) - {p}
    {
      files := files - {p};
    }

    /** Splits the file at `path`, whose lines are `lines`, into a head file
        holding the lines before line number `line` and a tail file holding
        the others, each line written with EOL. The file at `path` is only
        read. */
    method CreateHeadAndTailTempFiles(path: string, line: int, lines: seq<string>)
      returns (headPath: string, tailPath: string)
      requires path in files
      modifies this
      ensures headPath == HeadPath(path) && tailPath == TailPath(path)
      ensures files == old(files)[headPath := Terminate(HeadOf(lines, line))]
                                 [tailPath := Terminate(TailOf(lines, line))]
      ensures path in files && files[path] == old(files)[path]
    {
      headPath := path + "-head";
      tailPath := path + "-tail";
      TempPathsDistinct(path, path);
      Truncate(headPath);
      Truncate(tailPath);
      var lineCount := 1;
      var i := 0;
      while i < |lines|
        invariant 0 <= i <= |lines|
        invariant lineCount == i + 1
        invariant files == old(files)[headPath := Terminate(HeadOf(lines[..i], line))]
                                     [tailPath := Terminate(TailOf(lines[..i], line))]
      {
        var lineData := lines[i];
        SplitStep(lines, i, line);
        if lineCount < line {
          TerminateSnoc(HeadOf(lines[..i], line), lineData);
          Append(headPath, lineData + EOL);
        } else {
          TerminateSnoc(TailOf(lines[..i], line), lineData);
          Append(tailPath, lineData + EOL);
        }
        lineCount := lineCount + 1;
        i := i + 1;
      }
      assert lines[..i] == lines;
    }

    /** Overwrites the file at `path` with `head`, then `block`, then
        `tail`, strictly in that order. */
    method PipeInOrder(path: string, head: string, block: string, tail: string)
      modifies this
      ensures files == old(files)[path := head + block + tail]
    {
      Truncate(path);
      Append(path, head);
      assert files[path] == head;
      Append(path, block);
      Append(path, tail);
    }

    /** Inserts `content` into the file at `path`, whose lines are `lines`,
        just before line number `line`: splits it, rewrites `path` with the
        head, then `content` and EOL, then the tail, and deletes the two
        temporary files. No other file changes (InsertChangesOnlyItsPaths). */
    method InsertIntoLine(path: string, line: int, content: string, lines: seq<string>)
      requires path in files
      modifies this
      ensures files == old(files)[path := InsertedText(lines, line, content)]
                       - {HeadPath(path), TailPath(path)}
    {
      var headPath, tailPath := CreateHeadAndTailTempFiles(path, line, lines);
      TempPathsDistinct(path, path);
      var head := files[headPath];
      var tail := files[tailPath];
      var block := content + EOL;
      PipeInOrder(path, head, block, tail);
      Unlink(headPath);
      Unlink(tailPath);
      assert head + block + tail == InsertedText(lines, line, content);
      WritesOnlyPath(old(files), headPath, tailPath, head, tail, path, InsertedText(lines, line, content));
    }
  }

  /** A client: inserting X before line 2 of a three-line file leaves that
      file as A, X, B, C and no temporary file behind. */
  method InsertScenario()
  {
    var store := new FileStore(map["CHANGELOG.md" := "A\r\nB\r\nC\r\n"]);
    store.InsertIntoLine("CHANGELOG.md", 2, "X", ["A", "B", "C"]);
    InsertScenarioMiddle();
    assert HeadPath("CHANGELOG.md") != "CHANGELOG.md" && TailPath("CHANGELOG.md") != "CHANGELOG.md";
    assert store.files == map["CHANGELOG.md" := "A\r\nX\r\nB\r\nC\r\n"];
  }
}
