# Tail log servlet — Dafny model

A model of the tailing core of `TailLogsServlet`, a Sling servlet that shows
the end of a log file in the browser and lets the page poll for what was
appended since. One request:

1. normalises the `log` parameter to a file name (`doGet`);
2. picks the byte offset to start from — the last `bytesToRead` bytes on a
   first load, the client's `pointer` on a poll, or the last `bytesToRead`
   bytes again when the file is now shorter than the pointer (rollover);
3. reads lines from there to end of file with `RandomAccessFile.readLine`,
   passes each through the filter pipeline (column skip, minimum length,
   maximum length, must-contain, must-not-contain, truncation, highlight),
   appends each surviving line and `"<br>"` to a buffer, and takes the file
   position at end of file as the new pointer;
4. answers a first load (no pointer) with an HTML page and a poll with a JSON
   object `{log, pointer}`.

Modules: `Wrappers` (Option, Result), `LogName` (step 1), `Offset` (step 2),
`LineReader` (the lines `readLine` yields from a byte snapshot),
`LineFilter` (the pipeline and the text it builds), `TailLogs` (the request:
`Tail` is its specification, `AddLastNBytes`/`ReadToEof` the imperative
code proved equal to it, `DoGet` the entry point).

Assumptions the model makes explicit:

- The log file is a snapshot `seq<byte>` taken when the request starts; the
  file system is a map from path to snapshot, and a missing path is the
  `FileNotFoundException` thrown by `new RandomAccessFile`.
- `readLine` is library code and is modelled as a pure split of
  `bytes[start..]`: a line ends at LF, CR or CR LF, the terminator is consumed
  and not returned, a final unterminated segment is still a line, each byte is
  one character with the same code, and the loop ends only at end of file.
  So the pointer returned is the file length — or the start itself when the
  start lies past the end, which only a negative `bytesToRead` allows.
- `StringEscapeUtils.escapeHtml4` is the function parameter `esc`, about
  which nothing is assumed.
- Request parameters arrive parsed: integers as `Option<int>`, strings with
  `[]` for "missing or empty" (the servlet tests them with
  `StringUtils.isEmpty`/`isNotEmpty`, which do not distinguish the two).

Three behaviours that may look like oversights are modelled as the code
has them:

- Truncation does not clamp: `substring(0, trimToSize)` throws when
  `trimToSize` exceeds the line (or is negative), and the whole request fails
  with "Error reading file - <name>".
- The highlighted prefix is 10 characters, or 1 character when the line is
  shorter than 10 (not "the whole line"); an empty line makes the request
  fail. So `"abcdefghij"` with `startLineAt=2`, `trimToSize=5` highlights only
  `"c"` of `"cdefg"` (`LineFilter.FilterOrderExample`).
- The column skip uses a strict `>`: a line exactly `startLineAt` long is
  dropped.

## Model

| member | source | states |
|---|---|---|
| LogName.NormalizeName | test/test-core/src/main/java/com/abc/test/core/servlets/TailLogsServlet.java:216-224 | the file name always ends in ".log"; a missing or empty name gives "error.log"; otherwise the name is kept, with ".log" added only when it is not already there |
| LogName.EndsWith | test/test-core/src/main/java/com/abc/test/core/servlets/TailLogsServlet.java:222 | no contract of its own: String.endsWith; its use is stated by the NormalizeName row |
| LogName.NormalizeIdempotent | test/test-core/src/main/java/com/abc/test/core/servlets/TailLogsServlet.java:218-224 | normalising an already normalised name changes nothing |
| LogName.SuffixIsOptional | test/test-core/src/main/java/com/abc/test/core/servlets/TailLogsServlet.java:222-224 | a non-empty name that does not already end in ".log" and the same name with ".log" added select the same file (no double suffix) |
| LogName.AccessExample | test/test-core/src/main/java/com/abc/test/core/servlets/TailLogsServlet.java:216-224 | "access" and "access.log" both give "access.log"; missing and empty names give "error.log" |
| Offset.StartOffset | test/test-core/src/main/java/com/abc/test/core/servlets/TailLogsServlet.java:92-110 | start is max(0, len - btr) without a pointer; max(0, p) for a pointer p <= len; max(0, len - btr) after rollover (len < p), without an error; always >= 0 and, for btr >= 0, at most len |
| Offset.RolloverRestartsWindow | test/test-core/src/main/java/com/abc/test/core/servlets/TailLogsServlet.java:100-105 | a pointer beyond the file's length resolves to the same start as a first load |
| Offset.FirstLoadWindowExamples | test/test-core/src/main/java/com/abc/test/core/servlets/TailLogsServlet.java:95-110 | with window 2048, a 5000-byte file starts at 2952 and a 1000-byte file at 0 |
| LineReader.LineEnd | test/test-core/src/main/java/com/abc/test/core/servlets/TailLogsServlet.java:126 | the first terminator byte at or after i (or end of file): no byte before it is LF or CR |
| LineReader.ReadLine | test/test-core/src/main/java/com/abc/test/core/servlets/TailLogsServlet.java:126 | one readLine: the line is the bytes up to the first LF or CR, one character per byte, holding no LF or CR; the position after it consumes exactly one LF, CR or CR LF (none only at end of file) and always advances |
| LineReader.Lines | test/test-core/src/main/java/com/abc/test/core/servlets/TailLogsServlet.java:118-126 | the lines read from a position until readLine returns null: no more lines than bytes left, and none contains LF or CR |
| LineReader.LineEndShift | test/test-core/src/main/java/com/abc/test/core/servlets/TailLogsServlet.java:118-126 | where a line ends does not depend on the bytes before the seek position |
| LineReader.ReadLineShift | test/test-core/src/main/java/com/abc/test/core/servlets/TailLogsServlet.java:118-126 | a readLine gives the same line on the file and on any suffix of it that contains the position |
| LineReader.LinesShift | test/test-core/src/main/java/com/abc/test/core/servlets/TailLogsServlet.java:118-126 | the lines from a seek position depend only on the bytes from there on |
| LineReader.LinesOfAppended | test/test-core/src/main/java/com/abc/test/core/servlets/TailLogsServlet.java:118-126 | seeking to the old length of a grown file reads exactly the lines of the appended bytes |
| LineReader.LineEndBeforeBoundary | test/test-core/src/main/java/com/abc/test/core/servlets/TailLogsServlet.java:126 | in a snapshot ending in a terminator, appending bytes does not move where a line ends |
| LineReader.LinesSplit | test/test-core/src/main/java/com/abc/test/core/servlets/TailLogsServlet.java:118-126 | when the old snapshot ends on a line boundary, the lines of the grown file are the old snapshot's lines followed by those of the appended bytes |
| LineReader.PartialLineIsSplit | test/test-core/src/main/java/com/abc/test/core/servlets/TailLogsServlet.java:118-126 | without that boundary the split shows: "ab" then "c\n" reads as "ab" and "c" over two polls but as "abc" in one read |
| LineFilter.ContainsIff | test/test-core/src/main/java/com/abc/test/core/servlets/TailLogsServlet.java:143-149 | String.contains holds exactly when the text occurs at some index |
| LineFilter.StartAt | test/test-core/src/main/java/com/abc/test/core/servlets/TailLogsServlet.java:120-124 | no contract of its own: the start column, 0 unless startLineAt is given; its effect is stated by the SkipColumns and Select rows |
| LineFilter.SkipColumns | test/test-core/src/main/java/com/abc/test/core/servlets/TailLogsServlet.java:127-133 | for startAt > 0 a line of length <= startAt is dropped and any other keeps its last length - startAt characters; for startAt <= 0 the line passes unchanged |
| LineFilter.Select | test/test-core/src/main/java/com/abc/test/core/servlets/TailLogsServlet.java:127-149 | a line is kept exactly when the column skip keeps it and the rest meets every length and substring constraint that is set; the kept text is the skipped line |
| LineFilter.NotLineContainsWins | test/test-core/src/main/java/com/abc/test/core/servlets/TailLogsServlet.java:143-149 | a line whose skipped text holds notLineContains is dropped, whatever lineContains says |
| LineFilter.SelectedOccurrences | test/test-core/src/main/java/com/abc/test/core/servlets/TailLogsServlet.java:143-149 | every kept line holds lineContains at some index and holds notLineContains at none |
| LineFilter.Truncate | test/test-core/src/main/java/com/abc/test/core/servlets/TailLogsServlet.java:151-153 | without trimToSize the line is unchanged; with it the result is the prefix of exactly trimToSize characters, and it fails (no clamping) exactly when trimToSize is negative or longer than the line |
| LineFilter.PrefixLength | test/test-core/src/main/java/com/abc/test/core/servlets/TailLogsServlet.java:156 | no contract of its own: 1 for a line shorter than 10, else 10; its effect is stated by the Highlight row |
| LineFilter.Highlight | test/test-core/src/main/java/com/abc/test/core/servlets/TailLogsServlet.java:155-159 | fails exactly on the empty line; otherwise the span, the escaped first 10 characters (1 when the line is shorter than 10), "</span>" and the escaped rest |
| LineFilter.Shape | test/test-core/src/main/java/com/abc/test/core/servlets/TailLogsServlet.java:151-159 | a kept line fails exactly when truncation fails or highlighting meets an empty truncated line; without highlighting the output is the truncated line, with it the highlight of the truncated line (truncation comes first) |
| LineFilter.FilterLine | test/test-core/src/main/java/com/abc/test/core/servlets/TailLogsServlet.java:127-161 | no contract of its own: the loop body's choice between appending a text, `continue` and throwing, as stages 1-5 (`Select`) then 6-7 (`Shape`); its properties are stated by `Select`, `Shape`, `NotLineContainsWins`, `FilterOrderExample` and `Render` |
| LineFilter.Contains | test/test-core/src/main/java/com/abc/test/core/servlets/TailLogsServlet.java:143-147 | no contract of its own: String.contains; `ContainsIff` proves it holds exactly when the text occurs at some index |
| LineFilter.FilterOrderExample | test/test-core/src/main/java/com/abc/test/core/servlets/TailLogsServlet.java:127-159 | column skip, then truncation, then highlight: "abcdefghij" with startLineAt 2, trimToSize 5 emits the span around "c" followed by "defg" |
| LineFilter.Render | test/test-core/src/main/java/com/abc/test/core/servlets/TailLogsServlet.java:126-162 | the text built from the lines fails exactly when some line throws in the pipeline |
| LineFilter.RenderAppend | test/test-core/src/main/java/com/abc/test/core/servlets/TailLogsServlet.java:161 | the text of two runs of lines is the first run's text followed by the second's (output is the in-order concatenation of emitted line + "<br>") |
| TailLogs.ReadErrorMessage | test/test-core/src/main/java/com/abc/test/core/servlets/TailLogsServlet.java:166-167 | no contract of its own: the message "Error reading file - <name>" of a request whose read loop throws; `FailureCases` states when it is returned |
| TailLogs.Tail | test/test-core/src/main/java/com/abc/test/core/servlets/TailLogsServlet.java:79-205 | no contract of its own: the answer to one request as a function (missing file, start offset, text of the lines from the start, pointer at end of file, page or JSON); `AddLastNBytes` and `DoGet` are proved equal to it and `PointerReachesEof`, `FailureCases`, `PollAtEofIsEmpty`, `RolloverReadsFirstLoadWindow` and `SuccessivePolls` state its properties |
| TailLogs.IntervalSecs | test/test-core/src/main/java/com/abc/test/core/servlets/TailLogsServlet.java:179 | the refresh interval in seconds is the millisecond setting divided by 1000, truncated toward zero as Java does |
| TailLogs.Respond | test/test-core/src/main/java/com/abc/test/core/servlets/TailLogsServlet.java:174-204 | an HTML page exactly when the request had no pointer, a JSON object otherwise, both carrying the text and the new pointer |
| TailLogs.RenderLinesStep | test/test-core/src/main/java/com/abc/test/core/servlets/TailLogsServlet.java:126-162 | one loop iteration: the text from a position is the current line's outcome followed by the text from the next position |
| TailLogs.ReadToEof | test/test-core/src/main/java/com/abc/test/core/servlets/TailLogsServlet.java:117-167 | the loop's buffer is the text of the lines from the start (None when a line throws), and on success the pointer is the end of file, or the start if that lies past it |
| TailLogs.AddLastNBytes | test/test-core/src/main/java/com/abc/test/core/servlets/TailLogsServlet.java:79-205 | the offset branches, the read loop and the response choice give exactly `Tail`'s answer, so the same request on an unchanged file always gets the same text and pointer |
| TailLogs.DoGet | test/test-core/src/main/java/com/abc/test/core/servlets/TailLogsServlet.java:213-230 | the request answers for the normalised log name |
| TailLogs.PointerReachesEof | test/test-core/src/main/java/com/abc/test/core/servlets/TailLogsServlet.java:164 | a successful answer's pointer is at least the start and, with a non-negative window, equals the file length; the answer is a page exactly on a first load |
| TailLogs.FailureCases | test/test-core/src/main/java/com/abc/test/core/servlets/TailLogsServlet.java:115-167 | a request fails exactly when the file is missing or some line read throws in the pipeline; the latter fails with "Error reading file - <name>" |
| TailLogs.PollAtEofIsEmpty | test/test-core/src/main/java/com/abc/test/core/servlets/TailLogsServlet.java:97-164 | polling at the end-of-file pointer on an unchanged file gives empty text and the same pointer |
| TailLogs.RepollReturnsNothing | test/test-core/src/main/java/com/abc/test/core/servlets/TailLogsServlet.java:97-164 | polling again with exactly the pointer a successful answer returned, on an unchanged file, gives empty text and that pointer again, whatever the window |
| TailLogs.RolloverReadsFirstLoadWindow | test/test-core/src/main/java/com/abc/test/core/servlets/TailLogsServlet.java:97-110 | a poll whose pointer is past the end is not an error and returns the same text and pointer as a first load |
| TailLogs.SuccessivePolls | test/test-core/src/main/java/com/abc/test/core/servlets/TailLogsServlet.java:95-164 | for a non-negative bytesToRead, after the file grows, the poll that echoes the returned pointer reads exactly the appended bytes and returns the new length; when the first snapshot ended on a line boundary, both texts together equal one read of the grown file |

## Left out

- OSGi/Sling wiring (`@Component`, `@Designate`, `activate`, `SlingSettingsService`, the configuration annotation): the settings are the `Config` value.
- Real file I/O (open, seek, close, `File.length()`): the file is a byte snapshot taken at request time; appends by another process during a request are not modelled, nor is closing the file on every exit path.
- The HTML page text and script, and JSON serialisation: `Response` keeps only the decision between page and JSON and the values they embed.
- `StringEscapeUtils.escapeHtml4`: an arbitrary function parameter `esc`.
- Parsing with `Integer.parseInt`/`Long.parseLong`: parameters arrive parsed, and a malformed number is not modelled. In the servlet, `bytesToRead` and `pointer` are parsed before the file is opened, outside the `try`, and fail with a bare NumberFormatException; `startLineAt` is parsed inside the `try` before the loop and fails with "Error reading file - <name>" even when no line is read; `lineMinLength`, `lineMaxLength` and `trimToSize` are parsed inside the loop and fail that way only once a line reaches their check; `refreshInterval` is parsed after the read, on a first load only.
- Logging, and `doGet` swallowing exceptions: `DoGet` returns the error instead of logging it and writing nothing.
- 32- and 64-bit integer widths: offsets and lengths are unbounded; `len - btr` cannot overflow for any real file and setting.
- Path-traversal checks: the servlet does none, and neither does the model.
- TailLogs.ReadToEof: says nothing about the pointer when a line throws, because the servlet never reads it on that path.
