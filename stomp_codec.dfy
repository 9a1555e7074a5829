/**
 * The STOMP frame codec as functions over the frame text: how a frame is
 * split into its command line, its `key:value` header lines, the blank
 * line and the NUL-terminated body, how the result is validated against
 * the required-header table, and how a frame is written back as text.
 *
 * Only line feeds end lines and header values are taken verbatim: the
 * carriage-return line endings and the value escapes of section
 * "Value Encoding" of STOMP 1.2 are not implemented.
 */
module StompCodec {

  import opened Wrappers
  import opened StompTypes
  import opened StompNumbers

  /** `std::string::find` for one character: the index of its first occurrence. */
  function Find(s: string, c: char): (r: Option<nat>)
    ensures r.Some? ==> r.value < |s| && s[r.value] == c && c !in s[..r.value]
    ensures r.None? ==> c !in s
  {
    if s == [] then None
    else if s[0] == c then Some(0)
    else
      match Find(s[1..], c)
      case None => None
      case Some(i) =>
        assert s[..i + 1] == [s[0]] + s[1..][..i];
        Some(i + 1)
  }

  /** The first occurrence is the one `Find` reports. */
  lemma {:induction false} FindFirst(s: string, c: char, n: nat)
    requires n < |s| && s[n] == c && c !in s[..n]
    ensures Find(s, c) == Some(n)
  {
    if n > 0 {
      assert s[1..][..n - 1] == s[1..n];
      assert s[0] == s[..n][0];
      FindFirst(s[1..], c, n - 1);
    }
  }

  /** Whether a header map holds a value for `h`. */
  function HasHeader(headers: Headers, h: StompHeader): bool {
    h in headers
  }

  /** The value stored for `h`, or the empty string when there is none. */
  function GetHeaderValue(headers: Headers, h: StompHeader): (v: string)
    ensures h in headers ==> v == headers[h]
    ensures h !in headers ==> v == []
  {
    if h in headers then headers[h] else []
  }

  // ---------------------------------------------------------------------
  // Header lines

  datatype LineResult = LineOk(key: StompHeader, value: string) | LineFailed(error: StompError)

  /**
   * One header line, without its newline, split at its FIRST colon. The
   * checks run in this order: no colon, nothing after the colon, a key
   * that is not in the header table.
   */
  function LexHeaderLine(line: string): LineResult {
    match Find(line, ':')
    case None => LineFailed(ErrorHeaderMissingSemicolon)
    case Some(d) =>
      if d + 1 == |line| then
        LineFailed(ErrorHeaderEmptyValue)
      else
        match HeaderFromString(line[..d])
        case None => LineFailed(ErrorHeaderInvalidKey)
        case Some(k) => LineOk(k, line[d + 1..])
  }

  /**
   * A line that lexes is the spelling of its key, a colon and a non-empty
   * value; a line that does not fails with one of the three line errors.
   */
  lemma LexHeaderLineSound(line: string)
    ensures LexHeaderLine(line).LineOk? ==>
      var r := LexHeaderLine(line);
      line == HeaderString(r.key) + ":" + r.value && r.value != []
    ensures LexHeaderLine(line).LineFailed? ==>
      LexHeaderLine(line).error in {ErrorHeaderMissingSemicolon, ErrorHeaderEmptyValue, ErrorHeaderInvalidKey}
  {
    match Find(line, ':')
    case None =>
    case Some(d) =>
      if d + 1 != |line| && HeaderFromString(line[..d]).Some? {
        HeaderFromStringSound(line[..d]);
        assert line == line[..d] + ":" + line[d + 1..];
      }
  }

  /** The line a writer produces for `k` and a non-empty `v` lexes back to `k` and `v`. */
  lemma LexHeaderLineOfText(k: StompHeader, v: string)
    requires v != []
    ensures LexHeaderLine(HeaderString(k) + ":" + v) == LineOk(k, v)
  {
    var line := HeaderString(k) + ":" + v;
    var n := |HeaderString(k)|;
    assert line[n] == ':' && line[..n] == HeaderString(k);
    FindFirst(line, ':', n);
    assert line[n + 1..] == v;
    HeaderTableRoundTrip(k);
  }

  /** Records `v` for `k` unless `k` already has a value: the first occurrence wins. */
  function KeepFirst(acc: Headers, k: StompHeader, v: string): (r: Headers)
    ensures r.Keys == acc.Keys + {k}
    ensures r[k] == if k in acc then acc[k] else v
    ensures forall j :: j in acc ==> r[j] == acc[j]
  {
    if k in acc then acc else acc[k := v]
  }

  datatype HeaderScan = Scanned(headers: Headers, rest: string) | ScanFailed(error: StompError)

  /** Every stored value is non-empty and holds no line feed. */
  predicate ValuesAreLineSafe(headers: Headers) {
    forall k :: k in headers ==> headers[k] != [] && '\n' !in headers[k]
  }

  /** What reading one header line leaves: an error, or the text after the line and the updated map. */
  datatype LineStep = LineError(error: StompError) | NextLine(rest: string, headers: Headers)

  /**
   * One header line at the start of `s`: it must end with a line feed and
   * lex; its value is recorded unless its key already has one.
   */
  function ScanLine(s: string, acc: Headers): (r: LineStep)
    ensures r.NextLine? ==> |r.rest| < |s|
  {
    match Find(s, '\n')
    case None => LineError(ErrorHeaderMissingNewLine)
    case Some(e) =>
      match LexHeaderLine(s[..e])
      case LineFailed(x) => LineError(x)
      case LineOk(k, v) => NextLine(s[e + 1..], KeepFirst(acc, k, v))
  }

  /**
   * The header section, read line by line from `s` (the text after the
   * command line) into `acc` until a blank line. A key already in `acc`
   * keeps its value: the first occurrence wins. On success, `rest` is the
   * text after the blank line.
   */
  function ScanHeaders(s: string, acc: Headers): HeaderScan
    decreases |s|
  {
    if s == [] then
      ScanFailed(ErrorBodyNoNewLine)
    else if s[0] == '\n' then
      Scanned(acc, s[1..])
    else
      match ScanLine(s, acc)
      case LineError(x) => ScanFailed(x)
      case NextLine(rest, next) => ScanHeaders(rest, next)
  }

  /**
   * One line only adds to `acc`: the rest is a proper suffix, earlier
   * values are kept, the new value is non-empty and free of line feeds, and
   * a failure is one of the line errors.
   */
  lemma ScanLineSound(s: string, acc: Headers)
    ensures var r := ScanLine(s, acc);
      r.NextLine? ==> s[|s| - |r.rest|..] == r.rest
    ensures var r := ScanLine(s, acc);
      r.NextLine? ==> forall k :: k in acc ==> k in r.headers && r.headers[k] == acc[k]
    ensures var r := ScanLine(s, acc);
      r.NextLine? && ValuesAreLineSafe(acc) ==> ValuesAreLineSafe(r.headers)
    ensures var r := ScanLine(s, acc);
      r.LineError? ==> r.error in {ErrorHeaderMissingNewLine,
        ErrorHeaderMissingSemicolon, ErrorHeaderEmptyValue, ErrorHeaderInvalidKey}
  {
    match Find(s, '\n')
    case None =>
    case Some(e) =>
      LexHeaderLineSound(s[..e]);
      match LexHeaderLine(s[..e])
      case LineFailed(x) =>
      case LineOk(k, v) =>
        assert '\n' !in v by {
          assert s[..e] == HeaderString(k) + ":" + v;
        }
  }

  /**
   * The scan only adds to `acc`: earlier values are kept, every stored
   * value is non-empty and free of line feeds, the rest is a proper suffix,
   * and a failure is one of the header errors.
   */
  lemma {:induction false} ScanHeadersSound(s: string, acc: Headers)
    ensures var r := ScanHeaders(s, acc);
      r.Scanned? ==> |r.rest| < |s| && s[|s| - |r.rest|..] == r.rest
    ensures var r := ScanHeaders(s, acc);
      r.Scanned? ==> forall k :: k in acc ==> k in r.headers && r.headers[k] == acc[k]
    ensures var r := ScanHeaders(s, acc);
      r.Scanned? && ValuesAreLineSafe(acc) ==> ValuesAreLineSafe(r.headers)
    ensures var r := ScanHeaders(s, acc);
      r.ScanFailed? ==> r.error in {ErrorBodyNoNewLine, ErrorHeaderMissingNewLine,
        ErrorHeaderMissingSemicolon, ErrorHeaderEmptyValue, ErrorHeaderInvalidKey}
    decreases |s|
  {
    if s != [] && s[0] != '\n' {
      ScanLineSound(s, acc);
      ScanHeadersStep(s, acc);
      var line := ScanLine(s, acc);
      if line.NextLine? {
        ScanHeadersSound(line.rest, line.headers);
        var r := ScanHeaders(line.rest, line.headers);
        if r.Scanned? {
          assert s[|s| - |r.rest|..] == line.rest[|line.rest| - |r.rest|..];
        }
      }
    }
  }

  /** A non-blank line at the start of `s` is one step of the scan. */
  lemma ScanHeadersStep(s: string, acc: Headers)
    requires s != [] && s[0] != '\n'
    ensures ScanLine(s, acc).LineError? ==> ScanHeaders(s, acc) == ScanFailed(ScanLine(s, acc).error)
    ensures ScanLine(s, acc).NextLine? ==>
      ScanHeaders(s, acc) == ScanHeaders(ScanLine(s, acc).rest, ScanLine(s, acc).headers)
  {
  }

  // ---------------------------------------------------------------------
  // Body

  predicate OnlyNewLines(s: string) {
    forall i :: 0 <= i < |s| ==> s[i] == '\n'
  }

  datatype BodyScan = BodyFound(body: string) | BodyFailed(error: StompError) | BodyThrew(exception: StdException)

  /** After the terminating NUL only line feeds may follow. */
  function CheckTrailer(body: string, after: string): BodyScan {
    if OnlyNewLines(after) then BodyFound(body) else BodyFailed(ErrorWrongSymbolAfterBody)
  }

  /**
   * The body, read from `s` (the text after the blank line). With a
   * `content-length` header its value, converted by `stoi` and then to
   * `size_t`, delimits the body, which may then hold NUL bytes; without
   * one the body ends at the first NUL.
   */
  function ScanBody(headers: Headers, s: string): BodyScan {
    if StompHeader.ContentLength in headers then
      match Stoi(headers[StompHeader.ContentLength])
      case StoiThrew(x) => BodyThrew(x)
      case StoiValue(v) =>
        var n := ToSizeT(v);
        if n == |s| then BodyFailed(ErrorBodyMissingNull)
        else if n > |s| then BodyFailed(ErrorBodyLength)
        else if s[n] != '\0' then BodyFailed(ErrorBodyMissingNull)
        else CheckTrailer(s[..n], s[n + 1..])
    else
      match Find(s, '\0')
      case None => BodyFailed(ErrorBodyMissingNull)
      case Some(e) => CheckTrailer(s[..e], s[e + 1..])
  }

  /**
   * A body that is found is a prefix of `s` followed by a NUL and nothing
   * but line feeds; without `content-length` it holds no NUL, with it its
   * length is the converted value. Only `stoi` throws.
   */
  lemma ScanBodySound(headers: Headers, s: string)
    ensures var r := ScanBody(headers, s);
      r.BodyFound? ==> |r.body| < |s| && s[..|r.body|] == r.body && s[|r.body|] == '\0'
    ensures var r := ScanBody(headers, s);
      r.BodyFound? ==> OnlyNewLines(s[|r.body| + 1..])
    ensures var r := ScanBody(headers, s);
      r.BodyFound? && StompHeader.ContentLength !in headers ==> '\0' !in r.body
    ensures var r := ScanBody(headers, s);
      r.BodyFound? && StompHeader.ContentLength in headers ==>
        && Stoi(headers[StompHeader.ContentLength]).StoiValue?
        && ToSizeT(Stoi(headers[StompHeader.ContentLength]).value) == |r.body|
    ensures ScanBody(headers, s).BodyThrew? ==> StompHeader.ContentLength in headers
    ensures var r := ScanBody(headers, s);
      r.BodyFailed? ==> r.error in {ErrorBodyMissingNull, ErrorBodyLength, ErrorWrongSymbolAfterBody}
  {
  }

  // ---------------------------------------------------------------------
  // Validation

  /**
   * The length a `content-length` value declares to validation: `None` when
   * `from_chars` finds no digit; a value too large for `size_t` leaves the
   * length at its initial 0.
   */
  function DeclaredLength(v: string): Option<nat> {
    match FromChars(v)
    case FromCharsInvalid => None
    case FromCharsOutOfRange => Some(0)
    case FromCharsValue(n) => Some(n)
  }

  /**
   * `ValidateFrame`: the command must be a real one, every header its row
   * of the table demands must be present, and a `content-length` must read
   * as a number equal to the body's length, checked in that order.
   */
  function Validate(command: StompCommand, headers: Headers, body: string): (ec: StompError)
    ensures ec == Ok <==>
      && command != StompCommand.Unknown
      && RequiredHeaders(command) <= headers.Keys
      && (StompHeader.ContentLength in headers ==>
            DeclaredLength(headers[StompHeader.ContentLength]) == Some(|body|))
    ensures command == StompCommand.Unknown ==> ec == ErrorUnknown
    ensures command != StompCommand.Unknown && !(RequiredHeaders(command) <= headers.Keys) ==>
      ec == ErrorHeaderMissing
    ensures command != StompCommand.Unknown && RequiredHeaders(command) <= headers.Keys ==>
      && ((StompHeader.ContentLength in headers &&
           DeclaredLength(headers[StompHeader.ContentLength]).None?) ==> ec == ErrorHeaderContentLength)
      && ((StompHeader.ContentLength in headers &&
           DeclaredLength(headers[StompHeader.ContentLength]).Some? &&
           DeclaredLength(headers[StompHeader.ContentLength]) != Some(|body|)) ==> ec == ErrorBodyLength)
  {
    var hasAllHeaders :=
      match command
      case Connect | Stomp =>
        HasHeader(headers, StompHeader.AcceptVersion) && HasHeader(headers, StompHeader.Host)
      case Connected => HasHeader(headers, StompHeader.Version)
      case Send => HasHeader(headers, StompHeader.Destination)
      case Subscribe =>
        HasHeader(headers, StompHeader.Destination) && HasHeader(headers, StompHeader.Id)
      case Unsubscribe => HasHeader(headers, StompHeader.Id)
      case Ack | Nack => HasHeader(headers, StompHeader.Id)
      case Begin | Commit | Abort => HasHeader(headers, StompHeader.Transaction)
      case Disconnect => true
      case Message =>
        && HasHeader(headers, StompHeader.Destination)
        && HasHeader(headers, StompHeader.MessageId)
        && HasHeader(headers, StompHeader.Subscription)
      case Receipt => HasHeader(headers, StompHeader.ReceiptId)
      case Error => true
      case Unknown => false;
    if command == StompCommand.Unknown then
      ErrorUnknown
    else if !hasAllHeaders then
      ErrorHeaderMissing
    else if HasHeader(headers, StompHeader.ContentLength) then
      match DeclaredLength(GetHeaderValue(headers, StompHeader.ContentLength))
      case None => ErrorHeaderContentLength
      case Some(n) => if n != |body| then ErrorBodyLength else Ok
    else
      Ok
  }

  // ---------------------------------------------------------------------
  // The whole frame

  /** How a parse ends: an error code returned, or an exception from `stoi`. */
  datatype Status = Returned(ec: StompError) | Threw(exception: StdException)

  /** The status of a parse and the frame value it leaves behind. */
  datatype ParseOutcome = ParseOutcome(status: Status, frame: Frame)

  function Failure(ec: StompError): ParseOutcome {
    ParseOutcome(Returned(ec), EmptyFrame)
  }

  /** Everything after the blank line: the body, its trailer, then validation. */
  function Finish(command: StompCommand, headers: Headers, rest: string): ParseOutcome {
    match ScanBody(headers, rest)
    case BodyThrew(x) => ParseOutcome(Threw(x), EmptyFrame)
    case BodyFailed(x) => Failure(x)
    case BodyFound(b) =>
      var ec := Validate(command, headers, b);
      if ec == Ok then ParseOutcome(Returned(Ok), Frame(command, headers, b)) else Failure(ec)
  }

  /**
   * `ParseAndValidateFrame` as a function of the frame text. A frame is
   * stored only on `Ok`: every other outcome leaves the empty frame.
   */
  function Parse(text: string): ParseOutcome {
    match Find(text, '\n')
    case None => Failure(ErrorHeaderEmpty)
    case Some(e) =>
      match CommandFromString(text[..e])
      case None => Failure(ErrorCommandInvalid)
      case Some(command) =>
        match ScanHeaders(text[e + 1..], map[])
        case ScanFailed(x) => Failure(x)
        case Scanned(headers, rest) => Finish(command, headers, rest)
  }

  /**
   * A parse that does not return `Ok` leaves the empty frame, and one that
   * does holds a real command: no error path reports success.
   */
  lemma ParseStoresOnlyOnOk(text: string)
    ensures Parse(text).status != Returned(Ok) ==> Parse(text).frame == EmptyFrame
    ensures Parse(text).status == Returned(Ok) ==> Parse(text).frame.command != StompCommand.Unknown
  {
    match Find(text, '\n')
    case None =>
    case Some(e) =>
      match CommandFromString(text[..e])
      case None =>
      case Some(command) =>
        ScanHeadersSound(text[e + 1..], map[]);
        match ScanHeaders(text[e + 1..], map[])
        case ScanFailed(x) =>
        case Scanned(headers, rest) => ScanBodySound(headers, rest);
  }

  // ---------------------------------------------------------------------
  // Writing a frame

  /** One header line as `ConstructFrame` writes it. */
  function HeaderLineText(key: StompHeader, value: string): string {
    HeaderString(key) + ":" + value + "\n"
  }

  /** A list of header lines, in the given order. */
  function HeaderLinesText(lines: seq<(StompHeader, string)>): string {
    if lines == [] then []
    else HeaderLinesText(lines[..|lines| - 1]) + HeaderLineText(lines[|lines| - 1].0, lines[|lines| - 1].1)
  }

  /** `command\n`, the header lines, a blank line, the body and one NUL. */
  function FrameText(command: StompCommand, lines: seq<(StompHeader, string)>, body: string): string {
    CommandString(command) + "\n" + HeaderLinesText(lines) + "\n" + body + "\0"
  }

  /** The header keys named by a list of lines. */
  function LineKeys(lines: seq<(StompHeader, string)>): set<StompHeader> {
    set i | 0 <= i < |lines| :: lines[i].0
  }

  /** Appending one line to the list appends its text, after any prefix. */
  lemma HeaderLinesTextAppend(prefix: string, lines: seq<(StompHeader, string)>, line: (StompHeader, string))
    ensures prefix + HeaderLinesText(lines + [line]) == prefix + HeaderLinesText(lines) + HeaderLineText(line.0, line.1)
  {
    assert (lines + [line])[..|lines|] == lines;
    AppendAssociates(prefix, HeaderLinesText(lines), HeaderLineText(line.0, line.1));
  }

  lemma AppendAssociates<T>(a: seq<T>, b: seq<T>, c: seq<T>)
    ensures a + (b + c) == a + b + c
  {
  }

  /**
   * `lines` visits every entry of `headers` exactly once, in some order:
   * one way of iterating the unordered map, whose order is unspecified.
   */
  predicate Enumerates(lines: seq<(StompHeader, string)>, headers: Headers) {
    && (forall i :: 0 <= i < |lines| ==> lines[i].0 in headers && lines[i].1 == headers[lines[i].0])
    && (forall i, j :: 0 <= i < j < |lines| ==> lines[i].0 != lines[j].0)
    && headers.Keys <= LineKeys(lines)
  }

  /**
   * `lines` has visited the entries of `headers` whose keys are not in
   * `remaining`, each exactly once: the state of an iteration in progress.
   */
  predicate PartlyEnumerates(lines: seq<(StompHeader, string)>, headers: Headers, remaining: set<StompHeader>) {
    && remaining <= headers.Keys
    && (forall i :: 0 <= i < |lines| ==>
          lines[i].0 in headers && lines[i].1 == headers[lines[i].0] && lines[i].0 !in remaining)
    && (forall i, j :: 0 <= i < j < |lines| ==> lines[i].0 != lines[j].0)
    && headers.Keys <= LineKeys(lines) + remaining
  }

  /** Visiting one more remaining key keeps the iteration state consistent. */
  lemma PartlyEnumeratesStep(lines: seq<(StompHeader, string)>, headers: Headers, remaining: set<StompHeader>, key: StompHeader)
    requires PartlyEnumerates(lines, headers, remaining)
    requires key in remaining
    ensures PartlyEnumerates(lines + [(key, headers[key])], headers, remaining - {key})
  {
    var longer := lines + [(key, headers[key])];
    assert longer[|lines|].0 == key;
    forall k | k in LineKeys(lines)
      ensures k in LineKeys(longer)
    {
      var i :| 0 <= i < |lines| && lines[i].0 == k;
      assert longer[i].0 == k;
    }
  }

  /** An iteration with nothing remaining has visited every entry. */
  lemma PartlyEnumeratesDone(lines: seq<(StompHeader, string)>, headers: Headers)
    requires PartlyEnumerates(lines, headers, {})
    ensures Enumerates(lines, headers)
  {
  }
}
