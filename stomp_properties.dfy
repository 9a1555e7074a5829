/**
 * What the STOMP codec promises, stated over `StompCodec.Parse` and
 * `StompCodec.FrameText`: a frame written by `ConstructFrame` in any header
 * order parses back to itself exactly when it is well formed, every frame
 * a parse accepts is well formed, the first occurrence of a repeated
 * header wins, and each malformed part of a text yields its own error.
 */
module StompProperties {

  import opened Wrappers
  import opened StompTypes
  import opened StompNumbers
  import opened StompCodec

  // ---------------------------------------------------------------------
  // Well-formed frames

  /**
   * What `ParseAndValidateFrame` demands of a frame it accepts: a real
   * command, the headers its row of the table requires, values that fit on
   * one line, and a body delimited consistently: by a `content-length`
   * that both conversions read as the body's length, or else by the first
   * NUL.
   */
  predicate WellFormed(f: Frame) {
    && f.command != StompCommand.Unknown
    && RequiredHeaders(f.command) <= f.headers.Keys
    && ValuesAreLineSafe(f.headers)
    && (StompHeader.ContentLength in f.headers ==>
          var v := f.headers[StompHeader.ContentLength];
          && Stoi(v).StoiValue?
          && ToSizeT(Stoi(v).value) == |f.body|
          && DeclaredLength(v) == Some(|f.body|))
    && (StompHeader.ContentLength !in f.headers ==> '\0' !in f.body)
  }

  /** The outcome of a successful parse that stores `f`. */
  function Accepted(f: Frame): ParseOutcome {
    ParseOutcome(Returned(Ok), f)
  }

  // ---------------------------------------------------------------------
  // Header lines read front to back

  /** Header lines applied in order to `acc`, each value kept only if its key is new. */
  function KeepAll(acc: Headers, lines: seq<(StompHeader, string)>): Headers
    decreases |lines|
  {
    if lines == [] then acc else KeepAll(KeepFirst(acc, lines[0].0, lines[0].1), lines[1..])
  }

  /** Every value of a list of lines is non-empty and holds no line feed. */
  predicate LinesAreSafe(lines: seq<(StompHeader, string)>) {
    forall i :: 0 <= i < |lines| ==> lines[i].1 != [] && '\n' !in lines[i].1
  }

  /** The text of a list of lines starts with the text of its first line. */
  lemma {:induction false} HeaderLinesTextCons(line: (StompHeader, string), lines: seq<(StompHeader, string)>)
    ensures HeaderLinesText([line] + lines) == HeaderLineText(line.0, line.1) + HeaderLinesText(lines)
    decreases |lines|
  {
    if lines == [] {
      assert ([line] + lines)[..0] == [];
    } else {
      var init := lines[..|lines| - 1];
      var last := lines[|lines| - 1];
      var all := [line] + lines;
      assert all[..|all| - 1] == [line] + init;
      assert all[|all| - 1] == last;
      HeaderLinesTextCons(line, init);
      AppendAssociates(HeaderLineText(line.0, line.1), HeaderLinesText(init), HeaderLineText(last.0, last.1));
    }
  }

  /** The scan reads one complete header line at the start of its text. */
  lemma ScanOneLine(line: string, after: string, acc: Headers)
    requires line != [] && '\n' !in line
    ensures LexHeaderLine(line).LineFailed? ==>
      ScanHeaders(line + "\n" + after, acc) == ScanFailed(LexHeaderLine(line).error)
    ensures LexHeaderLine(line).LineOk? ==>
      ScanHeaders(line + "\n" + after, acc) ==
      ScanHeaders(after, KeepFirst(acc, LexHeaderLine(line).key, LexHeaderLine(line).value))
  {
    var s := line + "\n" + after;
    assert s[..|line|] == line;
    assert s[|line| + 1..] == after;
    FindFirst(s, '\n', |line|);
    assert s[0] == line[0];
    ScanHeadersStep(s, acc);
  }

  /** The scan reads one written header line and goes on with the text after it. */
  lemma ScanWrittenLine(k: StompHeader, v: string, after: string, acc: Headers)
    requires v != [] && '\n' !in v
    ensures ScanHeaders(HeaderLineText(k, v) + after, acc) == ScanHeaders(after, KeepFirst(acc, k, v))
  {
    var line := HeaderString(k) + ":" + v;
    LexHeaderLineOfText(k, v);
    ScanOneLine(line, after, acc);
  }

  /** The scan reads written header lines one by one, whatever text follows them. */
  lemma {:induction false} ScanWrittenLines(lines: seq<(StompHeader, string)>, acc: Headers, s: string)
    requires LinesAreSafe(lines)
    ensures ScanHeaders(HeaderLinesText(lines) + s, acc) == ScanHeaders(s, KeepAll(acc, lines))
    decreases |lines|
  {
    if lines == [] {
      assert HeaderLinesText(lines) + s == s;
    } else {
      var tail := lines[1..];
      assert lines == [lines[0]] + tail;
      HeaderLinesTextCons(lines[0], tail);
      AppendAssociates(HeaderLineText(lines[0].0, lines[0].1), HeaderLinesText(tail), s);
      ScanWrittenLine(lines[0].0, lines[0].1, HeaderLinesText(tail) + s, acc);
      assert LinesAreSafe(tail) by {
        forall i | 0 <= i < |tail|
          ensures tail[i].1 != [] && '\n' !in tail[i].1
        {
          assert tail[i] == lines[i + 1];
        }
      }
      ScanWrittenLines(tail, KeepFirst(acc, lines[0].0, lines[0].1), s);
    }
  }

  /**
   * Written header lines followed by the blank line are read back into the
   * map the lines give, and the scan stops right after the blank line.
   */
  lemma ScanWrittenHeader(lines: seq<(StompHeader, string)>, rest: string)
    requires LinesAreSafe(lines)
    ensures ScanHeaders(HeaderLinesText(lines) + "\n" + rest, map[]) == Scanned(KeepAll(map[], lines), rest)
  {
    AppendAssociates(HeaderLinesText(lines), "\n", rest);
    ScanWrittenLines(lines, map[], "\n" + rest);
    assert ("\n" + rest)[1..] == rest;
  }

  /** The keys of the lines after the first one. */
  lemma LineKeysCons(lines: seq<(StompHeader, string)>)
    requires lines != []
    ensures LineKeys(lines) == {lines[0].0} + LineKeys(lines[1..])
  {
    forall k | k in LineKeys(lines)
      ensures k in {lines[0].0} + LineKeys(lines[1..])
    {
      var i :| 0 <= i < |lines| && lines[i].0 == k;
      if i > 0 {
        assert lines[1..][i - 1].0 == k;
      }
    }
    forall k | k in LineKeys(lines[1..])
      ensures k in LineKeys(lines)
    {
      var i :| 0 <= i < |lines[1..]| && lines[1..][i].0 == k;
      assert lines[i + 1].0 == k;
    }
  }

  /**
   * Lines that agree with `headers`, applied to a part of `headers`, give
   * the part of `headers` whose keys are in the part or on some line.
   */
  lemma {:induction false} KeepAllAgreeing(acc: Headers, lines: seq<(StompHeader, string)>, headers: Headers)
    requires forall k :: k in acc ==> k in headers && acc[k] == headers[k]
    requires forall i :: 0 <= i < |lines| ==> lines[i].0 in headers && lines[i].1 == headers[lines[i].0]
    ensures KeepAll(acc, lines).Keys == acc.Keys + LineKeys(lines)
    ensures forall k :: k in KeepAll(acc, lines) ==> KeepAll(acc, lines)[k] == headers[k]
    decreases |lines|
  {
    if lines == [] {
      assert LineKeys(lines) == {};
    } else {
      var next := KeepFirst(acc, lines[0].0, lines[0].1);
      LineKeysCons(lines);
      assert forall i :: 0 <= i < |lines[1..]| ==> lines[1..][i] == lines[i + 1];
      KeepAllAgreeing(next, lines[1..], headers);
    }
  }

  /** Reading back the lines of an enumeration of `headers` gives `headers`. */
  lemma KeepAllOfEnumeration(lines: seq<(StompHeader, string)>, headers: Headers)
    requires Enumerates(lines, headers)
    ensures KeepAll(map[], lines) == headers
  {
    KeepAllAgreeing(map[], lines, headers);
  }

  /**
   * When a key occurs several times, the value on its first line is the
   * one the scan keeps.
   */
  lemma {:induction false} FirstOccurrenceWins(acc: Headers, lines: seq<(StompHeader, string)>, i: nat)
    requires i < |lines| && lines[i].0 !in acc
    requires forall j :: 0 <= j < i ==> lines[j].0 != lines[i].0
    ensures lines[i].0 in KeepAll(acc, lines)
    ensures KeepAll(acc, lines)[lines[i].0] == lines[i].1
    decreases |lines|
  {
    var next := KeepFirst(acc, lines[0].0, lines[0].1);
    if i == 0 {
      KeepAllKeeps(next, lines[1..], lines[0].0);
    } else {
      assert lines[1..][i - 1] == lines[i];
      FirstOccurrenceWins(next, lines[1..], i - 1);
    }
  }

  /** A key that already has a value keeps it through any further lines. */
  lemma {:induction false} KeepAllKeeps(acc: Headers, lines: seq<(StompHeader, string)>, k: StompHeader)
    requires k in acc
    ensures k in KeepAll(acc, lines) && KeepAll(acc, lines)[k] == acc[k]
    decreases |lines|
  {
    if lines != [] {
      KeepAllKeeps(KeepFirst(acc, lines[0].0, lines[0].1), lines[1..], k);
    }
  }

  // ---------------------------------------------------------------------
  // Round trip

  /** The command line of a written frame is found and looked up. */
  lemma CommandLineOfText(c: StompCommand, t: string)
    ensures Find(CommandString(c) + "\n" + t, '\n') == Some(|CommandString(c)|)
    ensures (CommandString(c) + "\n" + t)[..|CommandString(c)|] == CommandString(c)
    ensures (CommandString(c) + "\n" + t)[|CommandString(c)| + 1..] == t
    ensures CommandFromString(CommandString(c)) == Some(c)
  {
    var s := CommandString(c) + "\n" + t;
    var n := |CommandString(c)|;
    assert s[..n] == CommandString(c);
    FindFirst(s, '\n', n);
    CommandTableRoundTrip(c);
  }

  /** The body of a written frame, after the blank line, is read back. */
  lemma ScanWrittenBody(f: Frame)
    requires WellFormed(f)
    ensures ScanBody(f.headers, f.body + "\0") == BodyFound(f.body)
  {
    var s := f.body + "\0";
    assert s[..|f.body|] == f.body;
    assert s[|f.body| + 1..] == [];
    if StompHeader.ContentLength !in f.headers {
      FindFirst(s, '\0', |f.body|);
    }
  }

  /**
   * A frame written with its headers in any order parses back to the same
   * frame, with `Ok`, exactly when it is well formed.
   */
  lemma RoundTrip(f: Frame, lines: seq<(StompHeader, string)>)
    requires Enumerates(lines, f.headers)
    ensures Parse(FrameText(f.command, lines, f.body)) == Accepted(f) <==> WellFormed(f)
  {
    if WellFormed(f) {
      WrittenFrameParses(f, lines);
    }
    if Parse(FrameText(f.command, lines, f.body)) == Accepted(f) {
      AcceptedIsWellFormed(FrameText(f.command, lines, f.body));
    }
  }

  lemma WrittenFrameParses(f: Frame, lines: seq<(StompHeader, string)>)
    requires Enumerates(lines, f.headers) && WellFormed(f)
    ensures Parse(FrameText(f.command, lines, f.body)) == Accepted(f)
  {
    var after := HeaderLinesText(lines) + "\n" + (f.body + "\0");
    assert FrameText(f.command, lines, f.body) == CommandString(f.command) + "\n" + after;
    CommandLineOfText(f.command, after);
    assert LinesAreSafe(lines);
    ScanWrittenHeader(lines, f.body + "\0");
    KeepAllOfEnumeration(lines, f.headers);
    ScanWrittenBody(f);
  }

  /** Every frame a parse accepts is well formed. */
  lemma AcceptedIsWellFormed(text: string)
    requires Parse(text).status == Returned(Ok)
    ensures WellFormed(Parse(text).frame)
  {
    var e := Find(text, '\n').value;
    var command := CommandFromString(text[..e]).value;
    ScanHeadersSound(text[e + 1..], map[]);
    var scan := ScanHeaders(text[e + 1..], map[]);
    ScanBodySound(scan.headers, scan.rest);
  }

  /**
   * Writing an accepted frame back as text, in any header order, and
   * parsing that text gives the same outcome: `ToString` loses nothing.
   */
  lemma ReparseAccepted(text: string, lines: seq<(StompHeader, string)>)
    requires Parse(text).status == Returned(Ok)
    requires Enumerates(lines, Parse(text).frame.headers)
    ensures Parse(FrameText(Parse(text).frame.command, lines, Parse(text).frame.body)) == Parse(text)
  {
    AcceptedIsWellFormed(text);
    WrittenFrameParses(Parse(text).frame, lines);
  }

  // ---------------------------------------------------------------------
  // Errors, in the order the parser meets them

  /** A text with no line feed has no command line. */
  lemma NoCommandLine(text: string)
    requires '\n' !in text
    ensures Parse(text) == Failure(ErrorHeaderEmpty)
  {
  }

  /** A first line that is not a command's spelling. */
  lemma UnknownCommandLine(text: string, e: nat)
    requires e < |text| && text[e] == '\n' && '\n' !in text[..e]
    requires forall c :: CommandString(c) != text[..e]
    ensures Parse(text) == Failure(ErrorCommandInvalid)
  {
    FindFirst(text, '\n', e);
    CommandFromStringSound(text[..e]);
  }

  /**
   * `UNKNOWN COMMAND` is in the command table, so it passes the lookup,
   * and a frame that gets that far is then refused by validation.
   */
  lemma UnknownCommandRefusedByValidation(headers: Headers, lines: seq<(StompHeader, string)>, body: string)
    requires Enumerates(lines, headers) && LinesAreSafe(lines)
    requires ScanBody(headers, body + "\0") == BodyFound(body)
    ensures Parse(FrameText(StompCommand.Unknown, lines, body)) == Failure(ErrorUnknown)
  {
    var after := HeaderLinesText(lines) + "\n" + (body + "\0");
    assert FrameText(StompCommand.Unknown, lines, body) == CommandString(StompCommand.Unknown) + "\n" + after;
    CommandLineOfText(StompCommand.Unknown, after);
    ScanWrittenHeader(lines, body + "\0");
    KeepAllOfEnumeration(lines, headers);
  }

  /**
   * After a valid command line and valid header lines, a header line that
   * does not lex stops the parse with that line's error.
   */
  lemma BadHeaderLine(c: StompCommand, lines: seq<(StompHeader, string)>, line: string, rest: string)
    requires LinesAreSafe(lines)
    requires line != [] && line[0] != '\n' && '\n' !in line
    requires LexHeaderLine(line).LineFailed?
    ensures Parse(CommandString(c) + "\n" + (HeaderLinesText(lines) + (line + "\n" + rest))) ==
      Failure(LexHeaderLine(line).error)
  {
    var s := line + "\n" + rest;
    CommandLineOfText(c, HeaderLinesText(lines) + s);
    ScanWrittenLines(lines, map[], s);
    ScanOneLine(line, rest, KeepAll(map[], lines));
  }

  /**
   * After valid header lines, text with no further line feed is a header
   * line without its end.
   */
  lemma HeaderLineWithoutNewLine(c: StompCommand, lines: seq<(StompHeader, string)>, tail: string)
    requires LinesAreSafe(lines)
    requires tail != [] && '\n' !in tail
    ensures Parse(CommandString(c) + "\n" + (HeaderLinesText(lines) + tail)) == Failure(ErrorHeaderMissingNewLine)
  {
    CommandLineOfText(c, HeaderLinesText(lines) + tail);
    ScanWrittenLines(lines, map[], tail);
    ScanHeadersStep(tail, KeepAll(map[], lines));
  }

  /** A header section that ends without the blank line. */
  lemma NoBlankLine(c: StompCommand, lines: seq<(StompHeader, string)>)
    requires LinesAreSafe(lines)
    ensures Parse(CommandString(c) + "\n" + HeaderLinesText(lines)) == Failure(ErrorBodyNoNewLine)
  {
    CommandLineOfText(c, HeaderLinesText(lines));
    ScanWrittenLines(lines, map[], []);
    assert HeaderLinesText(lines) + [] == HeaderLinesText(lines);
  }

  /** A line without a colon, and a line whose first colon ends it, by their shape. */
  lemma HeaderLineShapeErrors(line: string)
    ensures LexHeaderLine(line) == LineFailed(ErrorHeaderMissingSemicolon) <==> ':' !in line
    ensures LexHeaderLine(line) == LineFailed(ErrorHeaderEmptyValue) <==>
      ':' in line && Find(line, ':') == Some(|line| - 1)
  {
  }

  /** A line with a value after its first colon fails exactly when no header name is spelled like its key. */
  lemma HeaderLineInvalidKey(line: string, d: nat)
    requires Find(line, ':') == Some(d) && d + 1 < |line|
    ensures LexHeaderLine(line) == LineFailed(ErrorHeaderInvalidKey) <==>
      forall h :: HeaderString(h) != line[..d]
  {
    HeaderFromStringSound(line[..d]);
  }

  // ---------------------------------------------------------------------
  // The body

  /** Without `content-length`, a body with no NUL after it is missing its terminator. */
  lemma BodyWithoutNul(headers: Headers, s: string)
    requires StompHeader.ContentLength !in headers && '\0' !in s
    ensures ScanBody(headers, s) == BodyFailed(ErrorBodyMissingNull)
  {
  }

  /**
   * With `content-length`, a declared length equal to the remaining text
   * leaves no room for the NUL, and a longer one runs past the text.
   */
  lemma DeclaredLengthTooLong(headers: Headers, s: string)
    requires StompHeader.ContentLength in headers
    requires Stoi(headers[StompHeader.ContentLength]).StoiValue?
    requires ToSizeT(Stoi(headers[StompHeader.ContentLength]).value) >= |s|
    ensures ToSizeT(Stoi(headers[StompHeader.ContentLength]).value) == |s| ==>
      ScanBody(headers, s) == BodyFailed(ErrorBodyMissingNull)
    ensures ToSizeT(Stoi(headers[StompHeader.ContentLength]).value) > |s| ==>
      ScanBody(headers, s) == BodyFailed(ErrorBodyLength)
  {
  }

  /** A declared length inside the text whose end is not a NUL fails with a missing NUL. */
  lemma DeclaredEndNotNul(headers: Headers, s: string)
    requires StompHeader.ContentLength in headers
    requires Stoi(headers[StompHeader.ContentLength]).StoiValue?
    requires ToSizeT(Stoi(headers[StompHeader.ContentLength]).value) < |s|
    requires s[ToSizeT(Stoi(headers[StompHeader.ContentLength]).value)] != '\0'
    ensures ScanBody(headers, s) == BodyFailed(ErrorBodyMissingNull)
  {
  }

  /**
   * A negative `content-length` read by `stoi` wraps around to a huge
   * `size_t`, so any text of realistic length reports a body length error.
   */
  lemma NegativeContentLength(headers: Headers, s: string)
    requires StompHeader.ContentLength in headers
    requires Stoi(headers[StompHeader.ContentLength]).StoiValue?
    requires Stoi(headers[StompHeader.ContentLength]).value < 0
    requires |s| < 0x8000_0000_0000_0000
    ensures ScanBody(headers, s) == BodyFailed(ErrorBodyLength)
  {
  }

  /** A `content-length` that `stoi` cannot read makes the parse throw. */
  lemma UnreadableContentLengthThrows(headers: Headers, s: string)
    requires StompHeader.ContentLength in headers
    requires Stoi(headers[StompHeader.ContentLength]).StoiThrew?
    ensures ScanBody(headers, s) == BodyThrew(Stoi(headers[StompHeader.ContentLength]).exception)
  {
  }

  /** With `content-length` the body may hold NUL bytes: only the declared end must be a NUL. */
  lemma ContentLengthAllowsNul(headers: Headers, body: string, after: string)
    requires StompHeader.ContentLength in headers
    requires Stoi(headers[StompHeader.ContentLength]) == StoiValue(|body|)
    requires OnlyNewLines(after)
    ensures ScanBody(headers, body + "\0" + after) == BodyFound(body)
  {
    var s := body + "\0" + after;
    assert s[..|body|] == body;
    assert s[|body| + 1..] == after;
  }

  /** Anything but line feeds after the terminating NUL is refused. */
  lemma TrailingGarbage(headers: Headers, body: string, after: string)
    requires StompHeader.ContentLength !in headers && '\0' !in body
    requires !OnlyNewLines(after)
    ensures ScanBody(headers, body + "\0" + after) == BodyFailed(ErrorWrongSymbolAfterBody)
  {
    var s := body + "\0" + after;
    assert s[..|body|] == body;
    assert s[|body| + 1..] == after;
    FindFirst(s, '\0', |body|);
  }

  /** With `content-length` as well, anything but line feeds after the NUL at the declared end is refused. */
  lemma TrailingGarbageWithLength(headers: Headers, body: string, after: string)
    requires StompHeader.ContentLength in headers
    requires Stoi(headers[StompHeader.ContentLength]) == StoiValue(|body|)
    requires !OnlyNewLines(after)
    ensures ScanBody(headers, body + "\0" + after) == BodyFailed(ErrorWrongSymbolAfterBody)
  {
    var s := body + "\0" + after;
    assert s[..|body|] == body;
    assert s[|body| + 1..] == after;
  }

  /** Line feeds after the terminating NUL are allowed. */
  lemma TrailingNewLines(headers: Headers, body: string, n: nat)
    requires StompHeader.ContentLength !in headers && '\0' !in body
    ensures ScanBody(headers, body + "\0" + seq(n, _ => '\n')) == BodyFound(body)
  {
    var after := seq(n, _ => '\n');
    var s := body + "\0" + after;
    assert s[..|body|] == body;
    assert s[|body| + 1..] == after;
    FindFirst(s, '\0', |body|);
  }
}
