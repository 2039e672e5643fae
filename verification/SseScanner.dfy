/**
 * The incremental scan of a server-sent event stream for the last usage it
 * reports (crates/proxy/src/http_response.rs).
 */
module SseScanner {
  import opened Wrappers
  import opened Text
  import opened Json
  import opened Seqs

  const MAX_BUFFERED_SSE_BYTES: nat := 8 * 1024 * 1024

  newtype Byte = b: int | 0 <= b < 256

  /** The foreign functions the scan calls. */
  datatype Decoder = Decoder(utf8: seq<Byte> -> Option<string>, json: string -> Option<Json>)

  // ---------------------------------------------------------------- delimiters

  predicate LfAt(b: seq<Byte>, i: nat) {
    i + 2 <= |b| && b[i] == 10 && b[i + 1] == 10
  }

  predicate CrlfAt(b: seq<Byte>, i: nat) {
    i + 4 <= |b| && b[i] == 13 && b[i + 1] == 10 && b[i + 2] == 13 && b[i + 3] == 10
  }

  /** The first position from `i` on where a blank line in LF form starts. */
  function FindLf(b: seq<Byte>, i: nat): (r: Option<nat>)
    requires i <= |b|
    ensures r.Some? ==> i <= r.value < |b| && LfAt(b, r.value) && forall j | i <= j < r.value :: !LfAt(b, j)
    ensures r.None? ==> forall j | i <= j :: !LfAt(b, j)
    decreases |b| - i
  {
    if i == |b| then None else if LfAt(b, i) then Some(i) else FindLf(b, i + 1)
  }

  function FindCrlf(b: seq<Byte>, i: nat): (r: Option<nat>)
    requires i <= |b|
    ensures r.Some? ==> i <= r.value < |b| && CrlfAt(b, r.value) && forall j | i <= j < r.value :: !CrlfAt(b, j)
    ensures r.None? ==> forall j | i <= j :: !CrlfAt(b, j)
    decreases |b| - i
  {
    if i == |b| then None else if CrlfAt(b, i) then Some(i) else FindCrlf(b, i + 1)
  }

  /** Where a frame ends, and how long its delimiter is. */
  datatype Delimiter = Delimiter(index: nat, length: nat)

  function FindDelimiter(b: seq<Byte>): (r: Option<Delimiter>)
    ensures r.Some? ==> r.value.index + r.value.length <= |b| && r.value.length in {2, 4}
  {
    match (FindLf(b, 0), FindCrlf(b, 0))
    case (Some(lf), Some(crlf)) => Some(if lf <= crlf then Delimiter(lf, 2) else Delimiter(crlf, 4))
    case (Some(lf), None) => Some(Delimiter(lf, 2))
    case (None, Some(crlf)) => Some(Delimiter(crlf, 4))
    case (None, None) => None
  }

  predicate DelimiterAt(b: seq<Byte>, d: Delimiter) {
    (d.length == 2 && LfAt(b, d.index)) || (d.length == 4 && CrlfAt(b, d.index))
  }

  predicate NoDelimiterBefore(b: seq<Byte>, n: nat) {
    forall j: nat | j < n :: !LfAt(b, j) && !CrlfAt(b, j)
  }

  /** The search finds the earliest delimiter of either kind, and there is only one such. */
  lemma FindsEarliest(b: seq<Byte>, d: Delimiter)
    ensures FindDelimiter(b) == Some(d) <==> DelimiterAt(b, d) && NoDelimiterBefore(b, d.index)
    ensures FindDelimiter(b) == None <==> NoDelimiterBefore(b, |b|)
  {
    var lf, crlf := FindLf(b, 0), FindCrlf(b, 0);
    assert DelimiterAt(b, d) ==> lf.Some? || crlf.Some?;
  }

  /** The earliest delimiter does not move when bytes are appended. */
  lemma DelimiterStable(b: seq<Byte>, c: seq<Byte>)
    requires FindDelimiter(b).Some?
    ensures FindDelimiter(b + c) == FindDelimiter(b)
  {
    hide FindDelimiter;
    var d := FindDelimiter(b).value;
    FindsEarliest(b, d);
    forall j: nat | j < d.index
      ensures !LfAt(b + c, j) && !CrlfAt(b + c, j)
    {
      assert !LfAt(b, j) && !CrlfAt(b, j);
    }
    FindsEarliest(b + c, d);
  }

  // -------------------------------------------------------------------- frames

  /** The complete frames of a byte stream ... */
  function Frames(b: seq<Byte>): seq<seq<Byte>> {
    match FindDelimiter(b)
    case None => []
    case Some(d) => [b[..d.index]] + Frames(b[d.index + d.length..])
  }

  /** ... and the bytes after the last of them. */
  function Residue(b: seq<Byte>): (r: seq<Byte>)
    ensures |r| <= |b|
  {
    match FindDelimiter(b)
    case None => b
    case Some(d) => Residue(b[d.index + d.length..])
  }

  /** Framing can be interrupted anywhere: the residue and the bytes to come yield the frames
      still to come. */
  lemma {:induction false} FramesResume(b: seq<Byte>, c: seq<Byte>)
    ensures Frames(b + c) == Frames(b) + Frames(Residue(b) + c)
    ensures Residue(b + c) == Residue(Residue(b) + c)
    decreases |b|
  {
    hide FindDelimiter;
    if FindDelimiter(b).Some? {
      DelimiterStable(b, c);
      var d := FindDelimiter(b).value;
      var n := d.index + d.length;
      assert (b + c)[..d.index] == b[..d.index];
      assert (b + c)[n..] == b[n..] + c;
      FramesResume(b[n..], c);
    }
  }

  // --------------------------------------------------------------------- usage

  /** `str::lines`: a line ends at `\n` or `\r\n`. */
  function Lines(s: string): seq<string>
    decreases |s|
  {
    if s == "" then []
    else
      var i := IndexOf(s, '\n');
      if i == |s| then [s]
      else [if i > 0 && s[i - 1] == '\r' then s[..i - 1] else s[..i]] + Lines(s[i + 1..])
  }

  function DataLines(lines: seq<string>): seq<string> {
    if lines == [] then []
    else if StartsWith(lines[0], "data:") then [TrimStart(lines[0][5..])] + DataLines(lines[1..])
    else DataLines(lines[1..])
  }

  /** The usage a frame reports, if it reports one. */
  function Reported(decoder: Decoder, frame: seq<Byte>): Option<Json> {
    match decoder.utf8(frame)
    case None => None
    case Some(text) =>
      var data := Trim(Join(DataLines(Lines(text)), "\n"));
      if data == "" || data == "[DONE]" then None
      else
        match decoder.json(data)
        case None => None
        case Some(value) => value.Get("usage")
  }

  /** The usage known after a frame. */
  function FrameUsage(decoder: Decoder, usage: Json, frame: seq<Byte>): Json {
    match Reported(decoder, frame)
    case Some(next) => next
    case None => usage
  }

  function FramesUsage(decoder: Decoder, usage: Json, frames: seq<seq<Byte>>): Json
    decreases |frames|
  {
    if frames == [] then usage else FramesUsage(decoder, FrameUsage(decoder, usage, frames[0]), frames[1..])
  }

  lemma {:induction false} FramesUsageConcat(decoder: Decoder, usage: Json, a: seq<seq<Byte>>, b: seq<seq<Byte>>)
    ensures FramesUsage(decoder, usage, a + b) == FramesUsage(decoder, FramesUsage(decoder, usage, a), b)
    decreases |a|
  {
    hide FrameUsage;
    if a == [] {
      assert a + b == b;
    } else {
      var s := a + b;
      assert s[1..] == a[1..] + b;
      FramesUsageConcat(decoder, FrameUsage(decoder, usage, a[0]), a[1..], b);
    }
  }

  predicate IsAsciiWhitespace(b: Byte) {
    b == 9 || b == 10 || b == 12 || b == 13 || b == 32
  }

  predicate IsBlank(b: seq<Byte>) {
    forall i | 0 <= i < |b| :: IsAsciiWhitespace(b[i])
  }

  /** All frames of a stream that has ended: bytes after the last delimiter are a frame too, unless
      they are blank. */
  function AllFrames(stream: seq<Byte>): seq<seq<Byte>> {
    if IsBlank(Residue(stream)) then Frames(stream) else Frames(stream) + [Residue(stream)]
  }

  /** The report nearest the end. */
  function LastReported(decoder: Decoder, frames: seq<seq<Byte>>): Json {
    if frames == [] then Null
    else
      var last := |frames| - 1;
      match Reported(decoder, frames[last])
      case Some(usage) => usage
      case None => LastReported(decoder, frames[..last])
  }

  /** Reading frames from the front and keeping the latest report finds the report nearest the end. */
  lemma {:induction false} LatestIsLast(decoder: Decoder, frames: seq<seq<Byte>>)
    ensures FramesUsage(decoder, Null, frames) == LastReported(decoder, frames)
    decreases |frames|
  {
    hide Reported;
    if frames != [] {
      var n := |frames| - 1;
      LatestIsLast(decoder, frames[..n]);
      assert frames == frames[..n] + [frames[n]];
      FramesUsageConcat(decoder, Null, frames[..n], [frames[n]]);
      FramesUsageOne(decoder, FramesUsage(decoder, Null, frames[..n]), frames[n]);
    }
  }

  lemma FramesUsageOne(decoder: Decoder, usage: Json, frame: seq<Byte>)
    ensures FramesUsage(decoder, usage, [frame]) == FrameUsage(decoder, usage, frame)
  {
    hide FrameUsage;
    assert [frame][1..] == [];
  }

  /** By position: frame `k` reports and none after it does. */
  lemma {:induction false} LastReportedAt(decoder: Decoder, frames: seq<seq<Byte>>, k: nat)
    requires k < |frames| && Reported(decoder, frames[k]).Some?
    requires forall j | k < j < |frames| :: Reported(decoder, frames[j]).None?
    ensures LastReported(decoder, frames) == Reported(decoder, frames[k]).value
    decreases |frames|
  {
    hide Reported;
    if k < |frames| - 1 {
      LastReportedAt(decoder, frames[..|frames| - 1], k);
    }
  }

  /** ... or no frame reports. */
  lemma {:induction false} NothingReported(decoder: Decoder, frames: seq<seq<Byte>>)
    requires forall j | 0 <= j < |frames| :: Reported(decoder, frames[j]).None?
    ensures LastReported(decoder, frames) == Null
    decreases |frames|
  {
    hide Reported;
    if frames != [] {
      NothingReported(decoder, frames[..|frames| - 1]);
    }
  }

  // ------------------------------------------------------------------- the scan

  datatype Scan = Scan(buffer: seq<Byte>, usage: Json, dropped: bool)

  function Idle(): Scan {
    Scan([], Null, false)
  }

  function Feed(decoder: Decoder, s: Scan, chunk: seq<Byte>): Scan {
    var b := s.buffer + chunk;
    var usage := FramesUsage(decoder, s.usage, Frames(b));
    if |Residue(b)| > MAX_BUFFERED_SSE_BYTES then Scan([], usage, true)
    else Scan(Residue(b), usage, s.dropped)
  }

  function FeedAll(decoder: Decoder, s: Scan, chunks: seq<seq<Byte>>): Scan {
    if chunks == [] then s
    else Feed(decoder, FeedAll(decoder, s, chunks[..|chunks| - 1]), chunks[|chunks| - 1])
  }

  /** The buffer and the usage that a stream's scan updates in place. */
  class UsageScanner {
    const decoder: Decoder
    var buffer: seq<Byte>
    var usage: Json
    var droppedOversizedFrame: bool

    ghost predicate Bounded()
      reads this
    {
      |buffer| <= MAX_BUFFERED_SSE_BYTES
    }

    ghost function View(): Scan
      reads this
    {
      Scan(buffer, usage, droppedOversizedFrame)
    }

    constructor (decoder: Decoder)
      ensures View() == Idle() && Bounded() && this.decoder == decoder
    {
      this.decoder := decoder;
      buffer, usage, droppedOversizedFrame := [], Null, false;
    }

    method CaptureStreamUsage(bytes: seq<Byte>) returns (dropped: bool)
      modifies this
      ensures View() == Feed(decoder, old(View()), bytes)
      ensures Bounded()
      ensures droppedOversizedFrame == (old(droppedOversizedFrame) || dropped)
    {
      hide FindDelimiter, FrameUsage;
      buffer := buffer + bytes;
      ghost var all, start := buffer, usage;
      assert Frames(buffer) == Frames(all);
      while FindDelimiter(buffer).Some?
        invariant FramesUsage(decoder, usage, Frames(buffer)) == FramesUsage(decoder, start, Frames(all))
        invariant Residue(buffer) == Residue(all)
        invariant droppedOversizedFrame == old(droppedOversizedFrame)
        decreases |buffer|
      {
        var d := FindDelimiter(buffer).value;
        var frame := buffer[..d.index];
        assert Frames(buffer)[1..] == Frames(buffer[d.index + d.length..]);
        buffer := buffer[d.index + d.length..];
        usage := FrameUsage(decoder, usage, frame);
      }
      dropped := false;
      if |buffer| > MAX_BUFFERED_SSE_BYTES {
        buffer := [];
        dropped := true;
        droppedOversizedFrame := true;
      }
    }

    /** After a stream fed within the cap the usage is the last one that any of its frames reports,
        the unfinished one included. */
    method CaptureRemainingStreamUsage()
      modifies this`usage
      ensures forall chunks | old(View()) == FeedAll(decoder, Idle(), chunks) && WithinCap(chunks) ::
                usage == LastReported(decoder, AllFrames(Stream(chunks)))
      ensures IsBlank(buffer) || Reported(decoder, buffer).None? ==> usage == old(usage)
      ensures !IsBlank(buffer) && Reported(decoder, buffer).Some? ==> usage == Reported(decoder, buffer).value
    {
      hide FeedAll, WithinCap, Frames, Residue, LastReported, FramesUsage;
      forall chunks | View() == FeedAll(decoder, Idle(), chunks) && WithinCap(chunks)
        ensures Ended(decoder, usage, buffer) == LastReported(decoder, AllFrames(Stream(chunks)))
      {
        EndedIsLast(decoder, chunks);
      }
      if !(forall i | 0 <= i < |buffer| :: IsAsciiWhitespace(buffer[i])) {
        usage := FrameUsage(decoder, usage, buffer);
      }
    }
  }

  // -------------------------------------------------- chunk boundaries do not matter

  function Stream(chunks: seq<seq<Byte>>): seq<Byte> {
    if chunks == [] then [] else Stream(chunks[..|chunks| - 1]) + chunks[|chunks| - 1]
  }

  /** At no chunk boundary is more than the cap left undelimited. */
  predicate WithinCap(chunks: seq<seq<Byte>>) {
    forall n: nat | n <= |chunks| :: FitsAt(chunks, n)
  }

  predicate FitsAt(chunks: seq<seq<Byte>>, n: nat)
    requires n <= |chunks|
  {
    |Residue(Stream(chunks[..n]))| <= MAX_BUFFERED_SSE_BYTES
  }

  /** The scan of the whole stream in one piece. */
  function OneShot(decoder: Decoder, stream: seq<Byte>): Scan {
    Scan(Residue(stream), FramesUsage(decoder, Null, Frames(stream)), false)
  }

  lemma WithinCapInit(chunks: seq<seq<Byte>>)
    requires chunks != []
    ensures WithinCap(chunks)
            <==> WithinCap(chunks[..|chunks| - 1]) && |Residue(Stream(chunks))| <= MAX_BUFFERED_SSE_BYTES
  {
    hide FitsAt;
    var init := chunks[..|chunks| - 1];
    FitsAtEnd(chunks);
    forall n: nat | n <= |init|
      ensures FitsAt(init, n) == FitsAt(chunks, n)
    {
      FitsAtInit(chunks, n);
    }
  }

  lemma FitsAtEnd(chunks: seq<seq<Byte>>)
    ensures FitsAt(chunks, |chunks|) <==> |Residue(Stream(chunks))| <= MAX_BUFFERED_SSE_BYTES
  {
    hide Residue, Stream;
    assert chunks[..|chunks|] == chunks;
  }

  lemma FitsAtInit(chunks: seq<seq<Byte>>, n: nat)
    requires n < |chunks|
    ensures FitsAt(chunks[..|chunks| - 1], n) == FitsAt(chunks, n)
  {
    hide Residue, Stream;
    assert chunks[..|chunks| - 1][..n] == chunks[..n];
  }

  /** Fed in chunks, the scanner ends exactly where the one-shot scan does, and reports a drop
      exactly when some chunk boundary leaves more than the cap undelimited. */
  lemma {:induction false} ChunkedEqualsOneShot(decoder: Decoder, chunks: seq<seq<Byte>>)
    ensures WithinCap(chunks) ==> FeedAll(decoder, Idle(), chunks) == OneShot(decoder, Stream(chunks))
    ensures FeedAll(decoder, Idle(), chunks).dropped <==> !WithinCap(chunks)
    decreases |chunks|
  {
    hide WithinCap, Frames, Residue, FramesUsage;
    if chunks == [] {
      EmptyStream(decoder);
    } else {
      var init, last := chunks[..|chunks| - 1], chunks[|chunks| - 1];
      ChunkedEqualsOneShot(decoder, init);
      WithinCapInit(chunks);
      FramesResume(Stream(init), last);
      FramesUsageConcat(decoder, Null, Frames(Stream(init)), Frames(Residue(Stream(init)) + last));
    }
  }

  lemma EmptyStream(decoder: Decoder)
    ensures Frames([]) == [] && Residue([]) == [] && FramesUsage(decoder, Null, []) == Null
    ensures WithinCap([])
  {
    var none: seq<seq<Byte>> := [];
    assert forall n: nat | n <= |none| :: none[..n] == none;
  }

  // ---------------------------------------------------- what a frame reports

  predicate IsDataLine(line: string) {
    |line| >= 5 && line[0] == 'd' && line[1] == 'a' && line[2] == 't' && line[3] == 'a' && line[4] == ':'
  }

  /** The payload lines are what stands behind `data:` in the lines that start with it, in order. */
  lemma {:induction false} DataLinesExactly(lines: seq<string>)
    ensures var data := Filter(IsDataLine, lines);
            && |DataLines(lines)| == |data|
            && forall n | 0 <= n < |data| :: |data[n]| >= 5 && DataLines(lines)[n] == TrimStart(data[n][5..])
  {
    hide TrimStart;
    if lines != [] {
      DataLinesExactly(lines[1..]);
      StartsAsData(lines[0]);
    }
  }

  lemma StartsAsData(line: string)
    ensures StartsWith(line, "data:") <==> IsDataLine(line)
  {
    var marker := "data:";
    if IsDataLine(line) {
      assert line[..5] == marker;
    }
    if StartsWith(line, marker) {
      assert forall i | 0 <= i < 5 :: line[i] == marker[i];
    }
  }

  /** A line ends at a newline, and loses a carriage return in front of it. */
  lemma LinesMore(line: string, rest: string)
    requires '\n' !in line
    ensures Lines(line + "\n" + rest)
            == [if line != "" && line[|line| - 1] == '\r' then line[..|line| - 1] else line] + Lines(rest)
  {
    hide IndexOf;
    var text := line + "\n" + rest;
    var i := IndexOf(text, '\n');
    NewlineAt(line, rest);
    assert text[i + 1..] == rest && text[..i] == line;
    if line != "" {
      assert text[i - 1] == line[|line| - 1] && text[..i - 1] == line[..|line| - 1];
    }
  }

  lemma NewlineAt(line: string, rest: string)
    requires '\n' !in line
    ensures IndexOf(line + "\n" + rest, '\n') == |line|
  {
    hide IndexOf;
    var text := line + "\n" + rest;
    var i := IndexOf(text, '\n');
    assert text[|line|] == '\n';
    assert forall j | 0 <= j < |line| :: text[j] == line[j];
    assert forall j | 0 <= j < i :: text[..i][j] == text[j];
  }

  /** Text without a newline is one line, or none if it is empty. */
  lemma LinesLast(line: string)
    requires '\n' !in line
    ensures Lines(line) == if line == "" then [] else [line]
  {
    hide IndexOf;
  }

  /** The usage in a JSON payload; blank payloads and `[DONE]` have none. */
  predicate PayloadReports(decoder: Decoder, payload: string, usage: Option<Json>) {
    var data := Trim(payload);
    if data == "" || data == "[DONE]" || decoder.json(data) == None then usage == None
    else usage == decoder.json(data).value.Get("usage")
  }

  /** A frame reports what its payload lines, joined by newlines, report; bytes that are not UTF-8
      report nothing. */
  lemma ReportedExactly(decoder: Decoder, frame: seq<Byte>)
    ensures match decoder.utf8(frame)
            case None => Reported(decoder, frame) == None
            case Some(text) =>
              PayloadReports(decoder, Join(DataLines(Lines(text)), "\n"), Reported(decoder, frame))
  {
    hide Trim, DataLines, Lines, Join;
  }

  /** A frame of one line `data:` and a payload reports what the payload reports. */
  lemma OneDataLine(decoder: Decoder, frame: seq<Byte>, payload: string)
    requires decoder.utf8(frame) == Some("data:" + payload) && '\n' !in payload
    ensures PayloadReports(decoder, payload, Reported(decoder, frame))
  {
    hide Trim, DataLines, Lines, Join, TrimStart;
    var line := "data:" + payload;
    assert '\n' !in line && line != "";
    LinesLast(line);
    DataLinesExactly([line]);
    OneLineData(line, payload);
    assert DataLines([line]) == [TrimStart(payload)];
    ReportedExactly(decoder, frame);
    JoinOne(TrimStart(payload));
    TrimTwice(payload);
  }

  lemma OneLineData(line: string, payload: string)
    requires line == "data:" + payload
    ensures IsDataLine(line) && line[5..] == payload && Filter(IsDataLine, [line]) == [line]
  {
    assert [line][1..] == [];
  }

  lemma JoinOne(part: string)
    ensures Join([part], "\n") == part
  {
  }

  lemma TrimTwice(s: string)
    ensures Trim(TrimStart(s)) == Trim(s)
  {
    var t := TrimStart(s);
    assert TrimStart(t) == t;
  }

  /** A frame without a `data:` line reports nothing. */
  lemma NoDataLine(decoder: Decoder, frame: seq<Byte>)
    requires decoder.utf8(frame).Some?
    requires forall line | line in Lines(decoder.utf8(frame).value) :: !IsDataLine(line)
    ensures Reported(decoder, frame) == None
  {
    hide Lines, IsDataLine, Trim, DataLines;
    var lines := Lines(decoder.utf8(frame).value);
    FilterDropsAll(IsDataLine, lines);
    DataLinesExactly(lines);
    assert DataLines(lines) == [];
    TrimNothing();
  }

  lemma TrimNothing()
    ensures Trim(Join([], "\n")) == ""
  {
  }

  /** The bytes a blank residue is made of. */
  lemma WhitespaceBytes(b: Byte)
    ensures IsAsciiWhitespace(b) <==> b in {9, 10, 12, 13, 32}
  {
  }

  /** The two delimiters. */
  lemma BytesAre(b: seq<Byte>, i: nat)
    ensures LfAt(b, i) <==> i + 2 <= |b| && b[i..i + 2] == [10, 10]
    ensures CrlfAt(b, i) <==> i + 4 <= |b| && b[i..i + 4] == [13, 10, 13, 10]
  {
  }

  // --------------------------------------------------- what the scan reads, chunk by chunk

  /** The bytes still buffered after the chunks; too many of them are dropped. */
  function Buffered(chunks: seq<seq<Byte>>): seq<Byte> {
    if chunks == [] then []
    else
      var b := Residue(Buffered(chunks[..|chunks| - 1]) + chunks[|chunks| - 1]);
      if |b| > MAX_BUFFERED_SSE_BYTES then [] else b
  }

  /** The frames read from the chunks, in order. */
  function Extracted(chunks: seq<seq<Byte>>): seq<seq<Byte>> {
    if chunks == [] then []
    else
      var init := chunks[..|chunks| - 1];
      Extracted(init) + Frames(Buffered(init) + chunks[|chunks| - 1])
  }

  /** How many chunks had come when bytes were last dropped; zero when none were.  From there on the
      scan reads as if the stream had just begun. */
  function LastDrop(chunks: seq<seq<Byte>>): (m: nat)
    ensures m <= |chunks|
  {
    if chunks == [] then 0
    else
      var m := LastDrop(chunks[..|chunks| - 1]);
      if |Residue(Stream(chunks[m..]))| > MAX_BUFFERED_SSE_BYTES then |chunks| else m
  }

  /** The scan keeps these bytes and the last usage these frames report. */
  lemma {:induction false} FeedsFrames(decoder: Decoder, chunks: seq<seq<Byte>>)
    ensures FeedAll(decoder, Idle(), chunks).buffer == Buffered(chunks)
    ensures FeedAll(decoder, Idle(), chunks).usage == LastReported(decoder, Extracted(chunks))
    decreases |chunks|
  {
    hide Frames, Residue, LastReported, FramesUsage;
    LatestIsLast(decoder, Extracted(chunks));
    if chunks == [] {
      EmptyStream(decoder);
    } else {
      var init, last := chunks[..|chunks| - 1], chunks[|chunks| - 1];
      FeedsFrames(decoder, init);
      LatestIsLast(decoder, Extracted(init));
      FramesUsageConcat(decoder, Null, Extracted(init), Frames(Buffered(init) + last));
    }
  }

  lemma StreamMore(chunks: seq<seq<Byte>>, m: nat)
    requires m < |chunks|
    ensures var n := |chunks| - 1; Stream(chunks[m..]) == Stream(chunks[..n][m..]) + chunks[n]
  {
    var n := |chunks| - 1;
    var rest := chunks[m..];
    assert rest[..|rest| - 1] == chunks[..n][m..] && rest[|rest| - 1] == chunks[n];
  }

  /** After a drop the scan starts afresh at that chunk boundary, in the middle of a frame: what it
      reads from there on is what the rest of the stream would give on its own. */
  lemma {:induction false} RestartsAtDrop(chunks: seq<seq<Byte>>)
    ensures var m := LastDrop(chunks);
            && Buffered(chunks) == Residue(Stream(chunks[m..]))
            && Extracted(chunks) == Extracted(chunks[..m]) + Frames(Stream(chunks[m..]))
    decreases |chunks|
  {
    hide Frames, Residue, Stream, Extracted, Buffered, LastDrop;
    var k := LastDrop(chunks);
    LastDropStep(chunks);
    BufferedStep(chunks);
    if chunks == [] {
      NothingRead();
    } else {
      var n := |chunks| - 1;
      var init, last := chunks[..n], chunks[n];
      var m := LastDrop(init);
      var before := Stream(init[m..]);
      RestartsAtDrop(init);
      StreamMore(chunks, m);
      FramesResume(before, last);
      if k == |chunks| {
        NothingRead();
        assert chunks[k..] == [] && chunks[..k] == chunks;
        assert Extracted(chunks) + [] == Extracted(chunks);
      } else {
        assert init[..m] == chunks[..m];
        ExtractedMore(chunks);
        Reassociate(Extracted(chunks[..m]), Frames(before), Frames(Residue(before) + last));
      }
    }
  }

  lemma Reassociate(a: seq<seq<Byte>>, b: seq<seq<Byte>>, c: seq<seq<Byte>>)
    ensures (a + b) + c == a + (b + c)
  {
  }

  lemma LastDropStep(chunks: seq<seq<Byte>>)
    ensures LastDrop(chunks)
            == if chunks == [] then 0
               else
                 var m := LastDrop(chunks[..|chunks| - 1]);
                 if |Residue(Stream(chunks[m..]))| > MAX_BUFFERED_SSE_BYTES then |chunks| else m
  {
    hide Residue, Stream;
  }

  lemma BufferedStep(chunks: seq<seq<Byte>>)
    ensures Buffered(chunks)
            == if chunks == [] then []
               else
                 var b := Residue(Buffered(chunks[..|chunks| - 1]) + chunks[|chunks| - 1]);
                 if |b| > MAX_BUFFERED_SSE_BYTES then [] else b
  {
    hide Residue;
  }

  lemma ExtractedMore(chunks: seq<seq<Byte>>)
    requires chunks != []
    ensures var init := chunks[..|chunks| - 1];
            Extracted(chunks) == Extracted(init) + Frames(Buffered(init) + chunks[|chunks| - 1])
  {
    hide Frames, Buffered;
  }

  lemma NothingRead()
    ensures Stream([]) == [] && Frames([]) == [] && Residue([]) == [] && Extracted([]) == []
  {
  }

  /** Nothing is dropped exactly while no chunk boundary leaves more than the cap. */
  lemma {:induction false} DropsExactly(chunks: seq<seq<Byte>>)
    ensures LastDrop(chunks) == 0 <==> WithinCap(chunks)
    decreases |chunks|
  {
    hide WithinCap, Residue, Stream;
    if chunks == [] {
      EmptyCap();
    } else {
      DropsExactly(chunks[..|chunks| - 1]);
      WithinCapInit(chunks);
      assert chunks[0..] == chunks;
    }
  }

  lemma EmptyCap()
    ensures WithinCap([])
  {
    var none: seq<seq<Byte>> := [];
    assert none[..0] == none;
  }

  /** Within the cap the scan reads the frames of the whole stream, and keeps its residue. */
  lemma ExtractsAll(chunks: seq<seq<Byte>>)
    requires WithinCap(chunks)
    ensures Extracted(chunks) == Frames(Stream(chunks)) && Buffered(chunks) == Residue(Stream(chunks))
  {
    hide WithinCap, Frames, Residue, Stream, Buffered;
    DropsExactly(chunks);
    RestartsAtDrop(chunks);
    assert chunks[0..] == chunks && chunks[..0] == [];
    NothingRead();
  }

  /** The usage once the bytes still buffered have been read. */
  function Ended(decoder: Decoder, usage: Json, buffer: seq<Byte>): Json {
    if IsBlank(buffer) then usage else FrameUsage(decoder, usage, buffer)
  }

  /** However the stream was cut, it ends with the last usage that any frame read reports, the bytes
      left over included. */
  lemma EndedReads(decoder: Decoder, chunks: seq<seq<Byte>>)
    ensures var s := FeedAll(decoder, Idle(), chunks);
            var frames := Extracted(chunks) + if IsBlank(Buffered(chunks)) then [] else [Buffered(chunks)];
            Ended(decoder, s.usage, s.buffer) == LastReported(decoder, frames)
  {
    hide FeedAll, Extracted, Buffered, LastReported, IsBlank, Reported;
    FeedsFrames(decoder, chunks);
    var frames, last := Extracted(chunks), Buffered(chunks);
    assert frames + [] == frames;
    LastReportedMore(decoder, frames, last);
  }

  lemma LastReportedMore(decoder: Decoder, frames: seq<seq<Byte>>, frame: seq<Byte>)
    ensures LastReported(decoder, frames + [frame])
            == match Reported(decoder, frame)
               case Some(usage) => usage
               case None => LastReported(decoder, frames)
  {
    hide Reported;
    var all := frames + [frame];
    assert all[..|all| - 1] == frames;
  }

  /** A stream fed within the cap ends with the usage of its last reporting frame. */
  lemma EndedIsLast(decoder: Decoder, chunks: seq<seq<Byte>>)
    requires WithinCap(chunks)
    ensures var s := FeedAll(decoder, Idle(), chunks);
            Ended(decoder, s.usage, s.buffer) == LastReported(decoder, AllFrames(Stream(chunks)))
  {
    hide FeedAll, WithinCap, Frames, Residue, LastReported, FramesUsage, FrameUsage, IsBlank;
    var stream := Stream(chunks);
    ChunkedEqualsOneShot(decoder, chunks);
    LatestIsLast(decoder, AllFrames(stream));
    FramesUsageConcat(decoder, Null, Frames(stream), [Residue(stream)]);
    FramesUsageOne(decoder, FramesUsage(decoder, Null, Frames(stream)), Residue(stream));
  }

  /** Two ways of cutting one stream, both within the cap, give the same frames, the same usage, the
      same leftover and the same usage once the leftover is read. */
  lemma ChunkingIrrelevant(decoder: Decoder, a: seq<seq<Byte>>, b: seq<seq<Byte>>)
    requires Stream(a) == Stream(b) && WithinCap(a) && WithinCap(b)
    ensures Extracted(a) == Extracted(b)
    ensures FeedAll(decoder, Idle(), a) == FeedAll(decoder, Idle(), b)
    ensures var s, t := FeedAll(decoder, Idle(), a), FeedAll(decoder, Idle(), b);
            Ended(decoder, s.usage, s.buffer) == Ended(decoder, t.usage, t.buffer)
            == LastReported(decoder, AllFrames(Stream(a)))
  {
    ChunkedEqualsOneShot(decoder, a);
    ChunkedEqualsOneShot(decoder, b);
    EndedIsLast(decoder, a);
    ExtractsAll(a);
    ExtractsAll(b);
  }

  // ------------------------------------------------- frames and residue make the stream

  /** Frames with their delimiters, followed by the residue, are the stream; and neither a frame
      nor the residue holds a delimiter. */
  lemma {:induction false} FramesPartition(b: seq<Byte>) returns (cuts: seq<Delimiter>)
    ensures |cuts| == |Frames(b)|
    ensures Rebuild(b, Frames(b), cuts, Residue(b))
    ensures NoDelimiterBefore(Residue(b), |Residue(b)|)
    ensures forall i | 0 <= i < |Frames(b)| :: NoDelimiterBefore(Frames(b)[i], |Frames(b)[i]|)
    decreases |b|
  {
    hide FindDelimiter;
    match FindDelimiter(b) {
      case None =>
        cuts := [];
        FindsEarliest(b, Delimiter(0, 2));
      case Some(d) =>
        FindsEarliest(b, d);
        var n := d.index + d.length;
        cuts := FramesPartition(b[n..]);
        cuts := [d] + cuts;
        assert Frames(b)[1..] == Frames(b[n..]) && cuts[1..] + [] == cuts[1..];
        PrefixHasNone(b, d.index);
    }
  }

  lemma PrefixHasNone(b: seq<Byte>, n: nat)
    requires n <= |b| && NoDelimiterBefore(b, n)
    ensures NoDelimiterBefore(b[..n], n)
  {
    forall j: nat | j < n
      ensures !LfAt(b[..n], j) && !CrlfAt(b[..n], j)
    {
      assert !LfAt(b, j) && !CrlfAt(b, j);
    }
  }

  /** The stream is frame, delimiter, frame, delimiter, ..., residue. */
  predicate Rebuild(b: seq<Byte>, frames: seq<seq<Byte>>, cuts: seq<Delimiter>, residue: seq<Byte>)
    requires |cuts| == |frames|
  {
    if frames == [] then b == residue
    else
      var d := cuts[0];
      d.index + d.length <= |b| && DelimiterAt(b, d) && frames[0] == b[..d.index]
      && Rebuild(b[d.index + d.length..], frames[1..], cuts[1..], residue)
  }
}
