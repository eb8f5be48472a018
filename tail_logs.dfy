/** One request to the tail servlet: resolve the start offset, read the lines
    from there to end of file through the filter pipeline, and answer with a
    page (first load) or a {log, pointer} payload (poll). */
module TailLogs {
  import opened Wrappers
  import opened LogName
  import opened Offset
  import opened LineReader
  import opened LineFilter

  /** The servlet's settings: log folder, initial bytes to read (default
      2048) and refresh interval in milliseconds (default 5000). */
  datatype Config = Config(logFolderPath: string, bytesToRead: int, refreshIntervalMillis: int)

  /** The parameters of a request besides `log`; `pointer` is absent on a
      first load. */
  datatype TailRequest = TailRequest(pointer: Option<int>, filters: FilterSpec)

  /** A first load gets an HTML page embedding the text, the file's path, the
      pointer and the refresh interval; a poll gets a JSON object. */
  datatype Response =
    | Page(log: string, path: string, pointer: int, intervalSecs: int)
    | Json(log: string, pointer: int)

  datatype TailError = FileNotFound(path: string) | ReadFailed(message: string)

  function ReadErrorMessage(logName: string): string
  {
    "Error reading file - " + logName
  }

  /** Java's `millis / 1000` on int, which truncates toward zero. */
  function IntervalSecs(millis: int): (secs: int)
    ensures millis >= 0 ==> 0 <= millis - 1000 * secs < 1000
    ensures millis < 0 ==> 0 <= 1000 * secs - millis < 1000
  {
    if millis >= 0 then millis / 1000 else -((-millis) / 1000)
  }

  /** The response shape depends only on whether the request had a pointer. */
  function Respond(cfg: Config, logName: string, pointerParam: Option<int>, text: string, pointer: int): (resp: Response)
    ensures resp.Page? <==> pointerParam.None?
    ensures resp.log == text && resp.pointer == pointer
  {
    if pointerParam.None? then
      Page(text, cfg.logFolderPath + logName, pointer, IntervalSecs(cfg.refreshIntervalMillis))
    else
      Json(text, pointer)
  }

  /** The answer to a request for the (normalised) log `logName`, with the
      file system given as a snapshot from path to bytes. */
  function Tail(cfg: Config, logName: string, fs: map<string, seq<byte>>, req: TailRequest, esc: string -> string)
    : Result<Response, TailError>
  {
    var path := cfg.logFolderPath + logName;
    if path !in fs then Err(FileNotFound(path))
    else
      var file := fs[path];
      var start := StartOffset(req.pointer, |file|, cfg.bytesToRead);
      match Render(Lines(file, start), req.filters, esc)
      case None => Err(ReadFailed(ReadErrorMessage(logName)))
      case Some(text) =>
        // readLine stops at end of file; a seek past it leaves the pointer where it was
        Ok(Respond(cfg, logName, req.pointer, text, if start < |file| then |file| else start))
  }

  lemma PrependAssoc(s: string, t: string, r: Option<string>)
    ensures Prepend(s, Prepend(t, r)) == Prepend(s + t, r)
  {
    match r {
      case None =>
      case Some(u) => assert s + (t + u) == (s + t) + u;
    }
  }

  /** Unfolds the text of the lines from `pos` by one readLine call. */
  lemma RenderLinesStep(file: seq<byte>, pos: nat, f: FilterSpec, esc: string -> string)
    requires pos < |file|
    ensures var l := ReadLine(file, pos);
      Render(Lines(file, pos), f, esc) ==
        match FilterLine(l.text, f, esc)
        case Fail => None
        case Drop => Render(Lines(file, l.next), f, esc)
        case Emit(t) => Prepend(t + LineBreak, Render(Lines(file, l.next), f, esc))
  {
    var l := ReadLine(file, pos);
    assert Lines(file, pos) == [l.text] + Lines(file, l.next);
    assert ([l.text] + Lines(file, l.next))[1..] == Lines(file, l.next);
  }

  /** The try block of addLastNBytes: from the seek position `start`, read
      lines until readLine returns null, appending each emitted text and
      "<br>" to the buffer, then take the file pointer. `text` is None when a
      line throws. */
  method ReadToEof(file: seq<byte>, start: nat, f: FilterSpec, esc: string -> string)
    returns (text: Option<string>, pointer: nat)
    ensures text == Render(Lines(file, start), f, esc)
    ensures text.Some? ==> pointer == if start < |file| then |file| else start
  {
    var sb := "";
    var pos := start;
    match Render(Lines(file, pos), f, esc) {
      case None =>
      case Some(all) => assert sb + all == all;
    }
    while pos < |file|
      invariant start <= pos
      invariant pos <= |file| || pos == start
      invariant Render(Lines(file, start), f, esc) == Prepend(sb, Render(Lines(file, pos), f, esc))
      decreases |file| - pos
    {
      var line := ReadLine(file, pos);
      RenderLinesStep(file, pos, f, esc);
      pos := line.next;
      match FilterLine(line.text, f, esc) {
        case Fail =>
          return None, pos;
        case Drop =>
        case Emit(t) =>
          PrependAssoc(sb, t + LineBreak, Render(Lines(file, pos), f, esc));
          sb := sb + (t + LineBreak);
      }
    }
    assert sb + [] == sb;
    text, pointer := Some(sb), pos;
  }

  /** addLastNBytes: compute the start offset, read to end of file, and
      answer with a page or a JSON payload. */
  method AddLastNBytes(cfg: Config, logName: string, fs: map<string, seq<byte>>, req: TailRequest, esc: string -> string)
    returns (r: Result<Response, TailError>)
    ensures r == Tail(cfg, logName, fs, req, esc)
  {
    var path := cfg.logFolderPath + logName;
    // File.length() is 0 for a file that does not exist
    var len := if path in fs then |fs[path]| else 0;
    var btr := cfg.bytesToRead;
    var filePointer := -1;
    if req.pointer.None? {
      filePointer := len - btr;
    } else {
      filePointer := req.pointer.value;
      // roll over or log clean
      if len < filePointer {
        filePointer := len - btr;
      }
    }
    if filePointer < 0 {
      filePointer := 0;
    }

    if path !in fs {
      return Err(FileNotFound(path));
    }
    var text, pointer := ReadToEof(fs[path], filePointer, req.filters, esc);
    if text.None? {
      return Err(ReadFailed(ReadErrorMessage(logName)));
    }
    r := Ok(Respond(cfg, logName, req.pointer, text.value, pointer));
  }

  /** doGet: normalise the `log` parameter and tail that file. The servlet
      logs a failure and writes nothing; the model returns it. */
  method DoGet(cfg: Config, log: Option<string>, fs: map<string, seq<byte>>, req: TailRequest, esc: string -> string)
    returns (r: Result<Response, TailError>)
    ensures r == Tail(cfg, NormalizeName(log), fs, req, esc)
  {
    var logName := NormalizeName(log);
    r := AddLastNBytes(cfg, logName, fs, req, esc);
  }

  /** A successful answer's pointer is at or after the start offset, and with
      a non-negative window it is the file's length. */
  lemma PointerReachesEof(cfg: Config, logName: string, fs: map<string, seq<byte>>, req: TailRequest, esc: string -> string)
    requires Tail(cfg, logName, fs, req, esc).Ok?
    ensures var file := fs[cfg.logFolderPath + logName];
      var resp := Tail(cfg, logName, fs, req, esc).value;
      && StartOffset(req.pointer, |file|, cfg.bytesToRead) <= resp.pointer
      && (cfg.bytesToRead >= 0 ==> resp.pointer == |file|)
      && (resp.Page? <==> req.pointer.None?)
  {
  }

  /** Failures: a missing file, or a line that throws in the pipeline, which
      fails the whole request with the log's name in the message. */
  lemma FailureCases(cfg: Config, logName: string, fs: map<string, seq<byte>>, req: TailRequest, esc: string -> string)
    ensures var path := cfg.logFolderPath + logName;
      Tail(cfg, logName, fs, req, esc).Err? <==>
        path !in fs
        || exists i :: 0 <= i < |Lines(fs[path], StartOffset(req.pointer, |fs[path]|, cfg.bytesToRead))|
             && FilterLine(Lines(fs[path], StartOffset(req.pointer, |fs[path]|, cfg.bytesToRead))[i], req.filters, esc).Fail?
    ensures var path := cfg.logFolderPath + logName;
      path in fs && Tail(cfg, logName, fs, req, esc).Err? ==>
        Tail(cfg, logName, fs, req, esc).error == ReadFailed("Error reading file - " + logName)
  {
  }

  /** Polling again with the pointer just returned, on an unchanged file,
      yields no text and the same pointer. */
  lemma PollAtEofIsEmpty(cfg: Config, logName: string, fs: map<string, seq<byte>>, req: TailRequest, esc: string -> string)
    requires cfg.logFolderPath + logName in fs
    requires req.pointer == Some(|fs[cfg.logFolderPath + logName]|)
    ensures Tail(cfg, logName, fs, req, esc) == Ok(Json([], |fs[cfg.logFolderPath + logName]|))
  {
  }

  /** Polling again with exactly the pointer an answer returned, on an
      unchanged file, yields no text and that pointer again. */
  lemma RepollReturnsNothing(cfg: Config, logName: string, fs: map<string, seq<byte>>, req: TailRequest, esc: string -> string)
    requires Tail(cfg, logName, fs, req, esc).Ok?
    ensures var p := Tail(cfg, logName, fs, req, esc).value.pointer;
      Tail(cfg, logName, fs, req.(pointer := Some(p)), esc) == Ok(Json([], p))
  {
  }

  /** A pointer beyond the end of the file (rollover) is not an error: the
      poll reads the same window, text and pointer as a first load. */
  lemma RolloverReadsFirstLoadWindow(cfg: Config, logName: string, fs: map<string, seq<byte>>, req: TailRequest, esc: string -> string)
    requires cfg.logFolderPath + logName in fs
    requires req.pointer.Some? && |fs[cfg.logFolderPath + logName]| < req.pointer.value
    ensures var first := Tail(cfg, logName, fs, req.(pointer := None), esc);
      var poll := Tail(cfg, logName, fs, req, esc);
      && first.Ok? == poll.Ok?
      && (poll.Ok? ==> poll.value.Json? && poll.value.log == first.value.log && poll.value.pointer == first.value.pointer)
  {
    var file := fs[cfg.logFolderPath + logName];
    RolloverRestartsWindow(req.pointer.value, |file|, cfg.bytesToRead);
  }

  /** Two successive requests on a growing file: the poll that echoes the
      first answer's pointer reads exactly the appended bytes, and, when the
      first snapshot ended on a line boundary, the two texts together are
      what one read of the grown file from the first start gives. */
  lemma {:induction false} SuccessivePolls(
    cfg: Config, logName: string, fs1: map<string, seq<byte>>, fs2: map<string, seq<byte>>,
    req1: TailRequest, req2: TailRequest, esc: string -> string, b: seq<byte>)
    requires cfg.bytesToRead >= 0
    requires cfg.logFolderPath + logName in fs1
    requires fs2 == fs1[cfg.logFolderPath + logName := fs1[cfg.logFolderPath + logName] + b]
    requires Tail(cfg, logName, fs1, req1, esc).Ok?
    requires req2 == req1.(pointer := Some(Tail(cfg, logName, fs1, req1, esc).value.pointer))
    ensures var a := fs1[cfg.logFolderPath + logName];
      var poll := Tail(cfg, logName, fs2, req2, esc);
      && (poll.Ok? <==> Render(Lines(b, 0), req1.filters, esc).Some?)
      && (poll.Ok? ==> poll.value == Json(Render(Lines(b, 0), req1.filters, esc).value, |a| + |b|))
    ensures var a := fs1[cfg.logFolderPath + logName];
      var start := StartOffset(req1.pointer, |a|, cfg.bytesToRead);
      var first := Tail(cfg, logName, fs1, req1, esc);
      var poll := Tail(cfg, logName, fs2, req2, esc);
      EndsOnLineBoundary(a, b) ==>
        Render(Lines(a + b, start), req1.filters, esc)
          == Join(Some(first.value.log), if poll.Ok? then Some(poll.value.log) else None)
  {
    var path := cfg.logFolderPath + logName;
    var a := fs1[path];
    var f := req1.filters;
    var start := StartOffset(req1.pointer, |a|, cfg.bytesToRead);
    assert Tail(cfg, logName, fs1, req1, esc).value.pointer == |a|;
    assert fs2[path] == a + b;
    assert StartOffset(req2.pointer, |a + b|, cfg.bytesToRead) == |a|;
    LinesOfAppended(a, b);
    if EndsOnLineBoundary(a, b) {
      LinesSplit(a, b, start);
      RenderAppend(Lines(a, start), Lines(b, 0), f, esc);
    }
  }
}
