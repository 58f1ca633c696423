# Line-targeted insertion into a changelog file

This project models the file-editing core of the changelog automation in
`utils.js`: inserting a block of text into a file just before a given
1-based line number, without holding the whole file in memory. It works in
two steps.

- **Split** (`createHeadAndTailTempFiles`). The file is read line by line
  with a counter that starts at 1. A line whose counter is below `line` is
  written to the temporary file `path-head`, every other line to
  `path-tail`. Every written line gets a CR LF terminator.
- **Insert** (`insertIntoLine`). The file at `path` is overwritten with the
  head file, then `content` followed by CR LF, then the tail file, in that
  order. Both temporary files are then deleted.

The model has four modules:

- `CrlfText` (`crlf_text.dfy`): the text of lines written with CR LF
  (`Terminate`). It also has the inverse reading of such text (`LinesOf`),
  which splits a text at each CR LF.
- `LineSplit` (`line_split.dfy`): which lines go to the head and which to
  the tail (`HeadOf`, `TailOf`), with the per-line counter rule,
  round-trip and size lemmas.
- `LineInsert` (`line_insert.dfy`): the lines and the text the insertion
  leaves behind (`InsertedLines`, `InsertedText`). Its lemmas cover where
  the content lands, the edge cases, read-back and repeated insertion.
- `Utils` (`utils.dfy`): the file system as a class `FileStore` holding
  `files: map<string, string>`. Its methods mirror the source: the split
  is a loop with the source's `lineCount` counter that appends to the two
  temporary files, and the insertion rewrites `path` and unlinks the
  temporary files. Each method's postcondition gives the new store in
  terms of the specification functions above.

The line sequence that the line reader produces for the file at `path` is
an input (`lines`) of the split and of the insertion; the tokenisation
itself is library behaviour and is not modelled.

Facts about `utils.js` that the model keeps:
- The tail suffix is `-tail` (utils.js:24).
- `line` is any integer. Nothing checks that it is at least 1, and
  `line <= 1` gives an empty head (utils.js:28).
- `insertIntoLine` resolves to nothing (utils.js:58-89).

## Model

| member | source | states |
|---|---|---|
| `LineSplit.SplitStep` | utils.js:26-34 | The line at index i has counter i + 1. It is appended to the head when i + 1 < line and to the tail otherwise, and the other part is unchanged. |
| `LineSplit.CounterRule` | utils.js:26-33 | For every source line, both directions: the line is in the head, at the same index, iff its counter is below `line`; otherwise it is in the tail, at index i minus the head's length. |
| `LineSplit.SplitRoundTrip` | utils.js:27-34 | Head followed by tail equals the original lines, in order, with nothing dropped or duplicated. |
| `LineSplit.SplitSizes` | utils.js:26-31 | The head and tail lengths add up to n. For 1 <= line <= n + 1 the head has line - 1 lines. `line <= 1` gives an empty head and the whole file as tail. `line > n` gives the whole file as head and an empty tail. An empty source gives two empty parts. |
| `CrlfText.TerminateSnoc` | utils.js:29-31 | Writing one more line appends exactly that line followed by CR LF to the text. |
| `CrlfText.TerminateAppend` | utils.js:27-34 | The text written for two runs of lines is the text of the first run followed by the text of the second. |
| `CrlfText.LinesOfTerminate` | utils.js:29-31 | Every written line ends in exactly one CR LF. Reading the written text back at its CR LFs gives exactly the original lines when they contain no CR or LF, as a line reader delivers them. |
| `LineInsert.InsertAtLine` | utils.js:67-77 | For 1 <= line <= n + 1 the result is lines[..line-1] + [content] + lines[line-1..], so the content sits at index line - 1. The text is the CR LF text of lines[..line-1], then content + CR LF, then the CR LF text of lines[line-1..]. |
| `LineInsert.InsertAtEdges` | utils.js:28-33 | `line <= 1` puts the content before every line. `line > n` puts it after the last line. |
| `LineInsert.InsertedTextAtStart` | utils.js:63-77 | With `line <= 1` the written text is content + CR LF followed by the whole original text. |
| `LineInsert.InsertedTextAtEnd` | utils.js:63-77 | With `line > n` the written text is the whole original text followed by content + CR LF. |
| `LineInsert.InsertKeepsText` | utils.js:63-77 | The content appears verbatim right after the head's text, followed by exactly one CR LF. Cutting that block out again leaves exactly the original lines' CR LF text. |
| `LineInsert.InsertedTextReadsBack` | utils.js:63 | Read back at CR LF (`LinesOf`), the result gives the head lines, then the lines of content + CR LF, then the tail lines, for any content, including one with embedded CR LFs. A content without CR or LF reads back as exactly head + [content] + tail. A lone LF or CR is not a break for `LinesOf`. |
| `LineInsert.InsertTwice` | utils.js:58-89 | Insertion is not idempotent. For single-line content (no CR or LF) and reader-shaped lines, a second insertion at the same line, made on the first result read back at CR LF, gives head + [content, content] + tail. |
| `LineInsert.InsertTwiceMultiLine` | utils.js:58-89 | With multi-line content the first copy reads back as several lines. One line A with "P\r\nQ" inserted at line 3 reads back as A, P, Q, and a second insertion there writes "A\r\nP\r\nP\r\nQ\r\nQ\r\n", inside the first copy. |
| `LineInsert.InsertScenarioMiddle` | utils.js:58-89 | Lines A, B, C with X inserted at line 2 give A, X, B, C, written as "A\r\nX\r\nB\r\nC\r\n". |
| `LineInsert.InsertScenarioEmpty` | utils.js:58-89 | An empty file with X inserted at line 1 gives the single line X, written as "X\r\n". |
| `Utils.TempPathsDistinct` | utils.js:21-25 | `path-head` and `path-tail` always differ from `path` and from each other. Each one determines the path it was made from. |
| `Utils.InsertChangesOnlyItsPaths` | utils.js:79-83 | After an insertion, `path` holds the new text and both temporary paths are absent. Every other path is present exactly when it was before, with the same contents. |
| `Utils.FileStore.Truncate` | utils.js:22 | Opening a file for writing creates it or empties it. Nothing else changes. |
| `Utils.FileStore.Append` | utils.js:29 | A write adds its data to the end of the open file. Nothing else changes. |
| `Utils.FileStore.Unlink` | utils.js:82 | Deleting a file removes exactly that path from the store. |
| `Utils.FileStore.CreateHeadAndTailTempFiles` | utils.js:12-49 | Returns `path-head` and `path-tail`. Afterwards they hold the CR LF text of the head and tail lines. Any earlier file there is overwritten, `path` is unchanged and no other path changes. The loop invariant keeps `lineCount` = lines read + 1. |
| `Utils.FileStore.PipeInOrder` | utils.js:67-77 | `path` is overwritten with head, then block, then tail, strictly in that order. Nothing else changes. |
| `Utils.FileStore.InsertIntoLine` | utils.js:58-89 | The new store is the old one with `path` holding `InsertedText(lines, line, content)` and both temporary paths removed. |

## Left out

- Turning the file's bytes into lines (the line reader with `crlfDelay: Infinity`, utils.js:16-19) is library behaviour. The split and the insertion take the line sequence `lines` as an input, and nothing ties it to the stored text of `path`.
- Stream, pipe and event mechanics (utils.js:69-77) are modelled as plain sequential steps in their observable order: head, then content block, then tail.
- Utils.FileStore.CreateHeadAndTailTempFiles: the `destroy()` calls on close (utils.js:36-38) may discard buffered writes. The model has every write land, which is the intended behaviour.
- Utils.FileStore.InsertIntoLine: the `destroy()` calls on finish (utils.js:80) are not modelled. The temporary files are deleted after all writes have landed.
- Error paths are not modelled. The `try`/`catch` blocks (utils.js:14, 46, 59, 85) catch only synchronous throws. Stream `error` events are never handled, and `console.err` (utils.js:86) is not a function. The split and the insertion therefore require the file at `path` to exist, and unlinking requires the file to exist.
- Utils.FileStore.InsertIntoLine: the caller-visible completion is not modelled. The source's promise resolves before the writes finish, and the method's postcondition describes the store once everything has finished.
- `line` is modelled as an integer. A non-integer JavaScript number would behave like its ceiling in the comparison at utils.js:28.
- The top-level call at utils.js:91-105, all console output, and the claim that the file is never loaded into memory all at once are not modelled. Memory use cannot be stated here.
- index.js holds only client and environment setup and is not part of this model.
- `CrlfText.LinesOf` splits only at CR LF. The program's line reader also ends a line at a lone LF or a lone CR, so for text holding those `LinesOf` is not that reader; the read-back lemmas are stated about `LinesOf`.
