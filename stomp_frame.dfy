/**
 * The `StompFrame` object: a command, a header map and a body, written
 * only by a parse that ends in `Ok`. Parsing walks the text with an
 * index, as the source does, and is proved to compute `StompCodec.Parse`.
 */
module StompFrames {

  import opened Wrappers
  import opened StompTypes
  import opened StompNumbers
  import opened StompCodec

  /**
   * `ConstructFrame`: the command line, one `key:value` line per header,
   * the blank line, the body and a NUL. The headers are visited in the
   * unspecified order of the unordered map, modelled by picking any key
   * not yet written.
   */
  method ConstructFrame(command: StompCommand, headers: Headers, body: string) returns (frame: string)
    ensures exists lines :: Enumerates(lines, headers) && frame == FrameText(command, lines, body)
  {
    var head := CommandString(command) + "\n";
    frame := head;
    ghost var lines: seq<(StompHeader, string)> := [];
    var remaining := headers.Keys;
    while remaining != {}
      invariant PartlyEnumerates(lines, headers, remaining)
      invariant frame == head + HeaderLinesText(lines)
      decreases remaining
    {
      var key :| key in remaining;
      ghost var previous := lines;
      frame := frame + HeaderLineText(key, headers[key]);
      lines := lines + [(key, headers[key])];
      HeaderLinesTextAppend(head, previous, (key, headers[key]));
      PartlyEnumeratesStep(previous, headers, remaining, key);
      remaining := remaining - {key};
    }
    frame := frame + "\n" + body + "\0";
    PartlyEnumeratesDone(lines, headers);
    assert frame == FrameText(command, lines, body);
  }

  class StompFrame {
    var command: StompCommand
    var headers: Headers
    var body: string

    /** The frame's value. */
    function Value(): Frame
      reads this
    {
      Frame(command, headers, body)
    }

    /** The field initialisers: an empty, invalid frame. */
    constructor ()
      ensures Value() == EmptyFrame
    {
      command := StompCommand.Unknown;
      headers := map[];
      body := [];
    }

    /** The copy constructor (and the move constructor, which is the same here). */
    constructor Copy(other: StompFrame)
      ensures Value() == other.Value()
    {
      command := other.command;
      headers := other.headers;
      body := other.body;
    }

    /** Copy and move assignment. */
    method Assign(other: StompFrame)
      modifies this
      ensures Value() == old(other.Value())
    {
      command, headers, body := other.command, other.headers, other.body;
    }

    /** The constructors that parse a string: a default frame, then a parse. */
    static method FromString(text: string) returns (frame: StompFrame, status: Status)
      ensures fresh(frame)
      ensures status == Parse(text).status
      ensures frame.Value() == Parse(text).frame
    {
      frame := new StompFrame();
      status := frame.ParseAndValidateFrame(text);
    }

    /** The constructor from parts: the parts are written as text and parsed again. */
    static method FromParts(command: StompCommand, headers: Headers, body: string)
      returns (frame: StompFrame, status: Status)
      ensures fresh(frame)
      ensures exists lines ::
        && Enumerates(lines, headers)
        && status == Parse(FrameText(command, lines, body)).status
        && frame.Value() == Parse(FrameText(command, lines, body)).frame
    {
      var text := ConstructFrame(command, headers, body);
      frame := new StompFrame();
      status := frame.ParseAndValidateFrame(text);
    }

    function GetCommand(): StompCommand
      reads this
    {
      command
    }

    /** The stored value of `h`, or the empty string when the frame has none. */
    function GetHeaderValue(h: StompHeader): (v: string)
      reads this
      ensures h in headers ==> v == headers[h]
      ensures h !in headers ==> v == []
    {
      StompCodec.GetHeaderValue(headers, h)
    }

    function GetBody(): string
      reads this
    {
      body
    }

    /** The frame written back as text. */
    method ToString() returns (text: string)
      ensures exists lines :: Enumerates(lines, headers) && text == FrameText(command, lines, body)
    {
      text := ConstructFrame(command, headers, body);
    }

    /**
     * Parses `text`. The fields are written only when the result is `Ok`;
     * on any other outcome they keep the values they had.
     */
    method ParseAndValidateFrame(text: string) returns (status: Status)
      modifies this
      ensures status == Parse(text).status
      ensures status == Returned(Ok) ==> Value() == Parse(text).frame
      ensures status != Returned(Ok) ==> Value() == old(Value())
    {
      // Command line.
      var commandEnd := Find(text, '\n');
      if commandEnd.None? {
        return Returned(ErrorHeaderEmpty);
      }
      var parsedCommand := CommandFromString(text[..commandEnd.value]);
      if parsedCommand.None? {
        return Returned(ErrorCommandInvalid);
      }
      var cmd := parsedCommand.value;

      // Header lines, then the body.
      var headerLines := ParseHeaderLines(text, commandEnd.value + 1);
      if headerLines.HeaderLinesFailed? {
        ScanHeadersSound(text[commandEnd.value + 1..], map[]);
        return Returned(headerLines.error);
      }
      var hs := headerLines.headers;
      var found := ParseBody(text, hs, headerLines.bodyStart);
      if found.BodyThrew? {
        return Threw(found.exception);
      }
      if found.BodyFailed? {
        ScanBodySound(hs, text[headerLines.bodyStart..]);
        return Returned(found.error);
      }
      var b := found.body;

      // Validation, then the fields.
      var ec := Validate(cmd, hs, b);
      if ec != Ok {
        return Returned(ec);
      }
      command, headers, body := cmd, hs, b;
      return Returned(Ok);
    }
  }

  /** Where the header loop stops: after the blank line, or at an error. */
  datatype HeaderLinesExit =
    | AfterBlankLine(headers: Headers, bodyStart: nat)
    | HeaderLinesFailed(error: StompError)

  /**
   * The header loop of `ParseAndValidateFrame`, from index `start` of
   * `text`: one `key:value` line at a time up to the blank line, the first
   * value of a key kept.
   */
  method ParseHeaderLines(text: string, start: nat) returns (r: HeaderLinesExit)
    requires start <= |text|
    ensures r.AfterBlankLine? ==>
      r.bodyStart <= |text| && ScanHeaders(text[start..], map[]) == Scanned(r.headers, text[r.bodyStart..])
    ensures r.HeaderLinesFailed? ==> ScanHeaders(text[start..], map[]) == ScanFailed(r.error)
  {
    var hs: Headers := map[];
    var headerStart := start;
    while headerStart < |text| && text[headerStart] != '\n'
      invariant start <= headerStart <= |text|
      invariant ScanHeaders(text[headerStart..], hs) == ScanHeaders(text[start..], map[])
      decreases |text| - headerStart
    {
      ScanHeadersStep(text[headerStart..], hs);
      var step := ParseHeaderLine(text, headerStart, hs);
      if step.HeaderLinesFailed? {
        return step;
      }
      hs, headerStart := step.headers, step.bodyStart;
    }
    if headerStart >= |text| || text[headerStart] != '\n' {
      return HeaderLinesFailed(ErrorBodyNoNewLine);
    }
    assert text[headerStart..][1..] == text[headerStart + 1..];
    return AfterBlankLine(hs, headerStart + 1);
  }

  /**
   * One pass of the header loop: the line that starts at `headerStart`,
   * split at its first colon, its key looked up in the table and its value
   * recorded unless the key already has one. On success `bodyStart` is the
   * index of the next line.
   */
  method ParseHeaderLine(text: string, headerStart: nat, hs: Headers) returns (r: HeaderLinesExit)
    requires headerStart <= |text|
    ensures r.AfterBlankLine? ==>
      headerStart < r.bodyStart <= |text| && ScanLine(text[headerStart..], hs) == NextLine(text[r.bodyStart..], r.headers)
    ensures r.HeaderLinesFailed? ==> ScanLine(text[headerStart..], hs) == LineError(r.error)
  {
    var rest := text[headerStart..];
    var lineEnd := Find(rest, '\n');
    if lineEnd.None? {
      return HeaderLinesFailed(ErrorHeaderMissingNewLine);
    }
    var line := rest[..lineEnd.value];
    var delim := Find(line, ':');
    if delim.None? {
      return HeaderLinesFailed(ErrorHeaderMissingSemicolon);
    }
    if delim.value + 1 == lineEnd.value {
      return HeaderLinesFailed(ErrorHeaderEmptyValue);
    }
    var key := HeaderFromString(line[..delim.value]);
    if key.None? {
      return HeaderLinesFailed(ErrorHeaderInvalidKey);
    }
    var next := hs;
    if key.value !in hs {
      next := hs[key.value := line[delim.value + 1..]];
    }
    var nextStart := headerStart + lineEnd.value + 1;
    assert rest[lineEnd.value + 1..] == text[nextStart..];
    r := AfterBlankLine(next, nextStart);
  }

  /**
   * The body stage of `ParseAndValidateFrame`, from index `bodyStart`:
   * delimit the body by `content-length` or by the first NUL, then require
   * nothing but line feeds after the NUL.
   */
  method ParseBody(text: string, headers: Headers, bodyStart: nat) returns (r: BodyScan)
    requires bodyStart <= |text|
    ensures r == ScanBody(headers, text[bodyStart..])
  {
    ghost var s := text[bodyStart..];
    var bodyLength: nat;
    var bodyEnd: nat;
    if StompHeader.ContentLength in headers {
      var declared := Stoi(headers[StompHeader.ContentLength]);
      if declared.StoiThrew? {
        return BodyThrew(declared.exception);
      }
      bodyLength := ToSizeT(declared.value);
      if bodyLength == |text| - bodyStart {
        return BodyFailed(ErrorBodyMissingNull);
      }
      if bodyLength > |text| - bodyStart {
        return BodyFailed(ErrorBodyLength);
      }
      bodyEnd := bodyStart + bodyLength;
      if text[bodyEnd] != '\0' {
        return BodyFailed(ErrorBodyMissingNull);
      }
    } else {
      var nul := Find(text[bodyStart..], '\0');
      if nul.None? {
        return BodyFailed(ErrorBodyMissingNull);
      }
      bodyEnd := bodyStart + nul.value;
      bodyLength := nul.value;
    }
    assert s[..bodyLength] == text[bodyStart..bodyEnd];
    assert s[bodyLength + 1..] == text[bodyEnd + 1..];
    var trailerOk := OnlyNewLinesFrom(text, bodyEnd + 1);
    if !trailerOk {
      return BodyFailed(ErrorWrongSymbolAfterBody);
    }
    r := BodyFound(text[bodyStart..bodyEnd]);
  }

  /** The loop after the body: every character from index `from` on must be a line feed. */
  method OnlyNewLinesFrom(text: string, from: nat) returns (ok: bool)
    requires from <= |text|
    ensures ok == OnlyNewLines(text[from..])
  {
    var idx := from;
    while idx < |text|
      invariant from <= idx <= |text|
      invariant forall j :: from <= j < idx ==> text[j] == '\n'
    {
      if text[idx] != '\n' {
        assert text[from..][idx - from] != '\n';
        return false;
      }
      idx := idx + 1;
    }
    return true;
  }
}
