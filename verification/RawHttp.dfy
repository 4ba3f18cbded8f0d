/**
 * splitBuffer (src/util/buffer-utils.ts), the response printer of
 * src/rules/websockets/websocket-step-impls.ts and parseRawHttpResponse (src/util/request-utils.ts), on
 * ASCII text.
 */
module RawHttp {
  import opened Prelude
  import opened Text
  import opened Headers
  import opened HeaderObjects

  // ---- splitBuffer -----------------------------------------------------------------------------

  /** The first place of a part at or after an index; None is -1. */
  function IndexFrom(s: string, part: string, start: nat): (at: Option<nat>)
    requires start <= |s|
    ensures at.Some? ==> start <= at.value && OccursAt(s, part, at.value)
    ensures at.Some? ==> forall i :: start <= i < at.value ==> !OccursAt(s, part, i)
    ensures at.None? ==> forall i :: start <= i <= |s| ==> !OccursAt(s, part, i)
    decreases |s| - start
  {
    if OccursAt(s, part, start) then Some(start)
    else if start == |s| then None
    else IndexFrom(s, part, start + 1)
  }

  /** The end of the first part. */
  function EndOfPart(s: string, splitter: string): (end: nat)
    ensures end <= |s| && (end < |s| ==> OccursAt(s, splitter, end))
    ensures forall i :: 0 <= i < end ==> !OccursAt(s, splitter, i)
  {
    match IndexFrom(s, splitter, 0)
    case Some(at) => at
    case None => |s|
  }

  /** Buffer.subarray, which clamps. */
  function Drop(s: string, n: nat): (rest: string)
    ensures |rest| == if n <= |s| then |s| - n else 0
  {
    if n <= |s| then s[n..] else ""
  }

  /** What is still to come when so many parts are done; no maximum stands for Infinity. */
  function Split(remaining: string, splitter: string, maxParts: Option<nat>, done: nat): seq<string>
    requires splitter != ""
    decreases |remaining|
  {
    if remaining == "" then []
    else
      var end := EndOfPart(remaining, splitter);
      var rest := Drop(remaining, end + |splitter|);
      if maxParts == Some(done + 2) then [remaining[..end], rest]
      else [remaining[..end]] + Split(rest, splitter, maxParts, done + 1)
  }

  lemma SplitStep(remaining: string, splitter: string, maxParts: Option<nat>, done: nat)
    requires splitter != "" && remaining != ""
    ensures var end := EndOfPart(remaining, splitter);
      var rest := Drop(remaining, end + |splitter|);
      Split(remaining, splitter, maxParts, done)
        == [remaining[..end]]
           + if maxParts == Some(done + 2) then [rest] else Split(rest, splitter, maxParts, done + 1)
  {
  }

  lemma SplitOfEmpty(splitter: string, maxParts: Option<nat>, done: nat)
    requires splitter != ""
    ensures Split("", splitter, maxParts, done) == []
  {
  }

  /** An empty splitter would never end. */
  method SplitBuffer(input: string, splitter: string, maxParts: Option<nat>) returns (parts: seq<string>)
    requires splitter != ""
    ensures parts == Split(input, splitter, maxParts, 0)
  {
    hide Split, EndOfPart;
    parts := [];
    var remaining := input;
    while remaining != ""
      invariant Split(input, splitter, maxParts, 0) == parts + Split(remaining, splitter, maxParts, |parts|)
      decreases |remaining|
    {
      var endOfPart := EndOfPart(remaining, splitter);
      SplitStep(remaining, splitter, maxParts, |parts|);
      parts := parts + [remaining[..endOfPart]];
      remaining := Drop(remaining, endOfPart + |splitter|);
      if maxParts.Some? && |parts| == maxParts.value - 1 {
        parts := parts + [remaining];
        return;
      }
    }
    assert Split("", splitter, maxParts, |parts|) == [] by { SplitOfEmpty(splitter, maxParts, |parts|); }
  }

  lemma {:induction false} LimitHolds(remaining: string, splitter: string, max: nat, done: nat)
    requires splitter != ""
    ensures done + 2 <= max ==> done + |Split(remaining, splitter, Some(max), done)| <= max
    ensures max < done + 2 ==> Split(remaining, splitter, Some(max), done) == Split(remaining, splitter, None, done)
    decreases |remaining|
  {
    hide EndOfPart, Split;
    if remaining == "" {
      SplitOfEmpty(splitter, Some(max), done);
      SplitOfEmpty(splitter, None, done);
    } else {
      SplitStep(remaining, splitter, Some(max), done);
      SplitStep(remaining, splitter, None, done);
      LimitHolds(Drop(remaining, EndOfPart(remaining, splitter) + |splitter|), splitter, max, done + 1);
    }
  }

  /** A limit of two or more holds; a limit below two is no limit at all. */
  lemma LimitsFromTwoHold(input: string, splitter: string, max: nat)
    requires splitter != ""
    ensures max >= 2 ==> |Split(input, splitter, Some(max), 0)| <= max
    ensures max < 2 ==> Split(input, splitter, Some(max), 0) == Split(input, splitter, None, 0)
  {
    LimitHolds(input, splitter, max, 0);
  }

  lemma PartIsClean(s: string, splitter: string)
    requires splitter != ""
    ensures !Includes(s[..EndOfPart(s, splitter)], splitter)
  {
    var part := s[..EndOfPart(s, splitter)];
    forall at | 0 <= at <= |part|
      ensures !OccursAt(part, splitter, at)
    {
      if OccursAt(part, splitter, at) {
        assert part[at..at + |splitter|] == s[at..at + |splitter|];
        assert OccursAt(s, splitter, at);
      }
    }
  }

  /** The parts contain no separator, and joined they are the input up to one separator at its end. */
  lemma {:induction false} SplitLosesNothing(input: string, splitter: string, done: nat)
    requires splitter != ""
    ensures var parts := Split(input, splitter, None, done);
      && (forall i :: 0 <= i < |parts| ==> !Includes(parts[i], splitter))
      && (input == Join(parts, splitter) || input == Join(parts, splitter) + splitter)
      && (parts == [] <==> input == "")
    decreases |input|
  {
    hide Includes, EndOfPart, OccursAt, Split, Join, Drop;
    if input == "" {
      SplitOfEmpty(splitter, None, done);
      JoinNone(splitter);
    } else {
      var end := EndOfPart(input, splitter);
      var rest := Drop(input, end + |splitter|);
      SplitStep(input, splitter, None, done);
      SplitLosesNothing(rest, splitter, done + 1);
      PartIsClean(input, splitter);
      FirstPart(input, splitter);
      RestJoins(input[..end], Split(rest, splitter, None, done + 1), splitter);
    }
  }

  lemma RestJoins(part: string, others: seq<string>, splitter: string)
    ensures Join([part] + others, splitter) == if others == [] then part else part + splitter + Join(others, splitter)
    ensures others == []
         || part + splitter + (Join(others, splitter) + splitter) == Join([part] + others, splitter) + splitter
  {
    var parts := [part] + others;
    assert parts[1..] == others;
    if others != [] { JoinCons(parts, splitter); }
  }

  lemma JoinNone(separator: string)
    ensures Join([], separator) == ""
  {
  }

  lemma FirstPart(s: string, splitter: string)
    requires splitter != ""
    ensures var end := EndOfPart(s, splitter); var rest := Drop(s, end + |splitter|);
      if end < |s| then s == s[..end] + splitter + rest else s == s[..end] && rest == ""
  {
  }

  // ---- Printing --------------------------------------------------------------------------------

  const CRLF: string := "\r\n"

  function HeaderLine(h: Header): string { h.name + ": " + h.value }

  function HeaderLines(headers: seq<Header>): seq<string> {
    seq(|headers|, i requires 0 <= i < |headers| => HeaderLine(headers[i]))
  }

  function StatusLine(statusCode: nat, statusMessage: string): string {
    "HTTP/1.1 " + Decimal(statusCode) + " " + statusMessage
  }

  function RawResponse(statusCode: nat, statusMessage: string, headers: seq<Header>): string {
    StatusLine(statusCode, statusMessage) + CRLF + Join(HeaderLines(headers), CRLF) + CRLF + CRLF
  }

  /** What is printed, to the letter. */
  lemma PrintedText()
    ensures RawResponse(101, "OK", [Header("a", "b"), Header("c", "")]) == "HTTP/1.1 101 OK\r\na: b\r\nc: \r\n\r\n"
  {
    var headers := [Header("a", "b"), Header("c", "")];
    assert HeaderLine(headers[0]) == "a: b" && HeaderLine(headers[1]) == "c: ";
    assert HeaderLines(headers) == ["a: b", "c: "];
    assert ["a: b", "c: "][..1] == ["a: b"];
    assert Decimal(101) == Decimal(10) + "1" == "101";
  }

  // ---- Parsing ---------------------------------------------------------------------------------

  datatype Response = Response(
    statusCode: Option<int>,
    statusMessage: string,
    rawHeaders: seq<Header>,
    headers: seq<Entry>)

  datatype ParseError = NoLines

  /** _.findIndex for an empty line. */
  function EmptyLine(lines: seq<string>): (at: Option<nat>)
    ensures at.Some? ==> at.value < |lines| && lines[at.value] == "" && forall i :: 0 <= i < at.value ==> lines[i] != ""
    ensures at.None? ==> forall i :: 0 <= i < |lines| ==> lines[i] != ""
  {
    if lines == [] then None
    else if lines[0] == "" then Some(0)
    else match EmptyLine(lines[1..])
      case Some(at) => Some(at + 1)
      case None => None
  }

  /** lines.slice(1, emptyLineIndex). */
  function LinesBefore(lines: seq<string>): (result: seq<string>)
    requires lines != []
    ensures forall i :: 0 <= i < |result| ==> result[i] != "" && result[i] in lines
  {
    match EmptyLine(lines)
    case None => lines[1..]
    case Some(at) => if at <= 1 then [] else lines[1..at]
  }

  function ParseHeader(line: string): Header
    requires line != ""
  {
    var parts := Split(line, ":", Some(2), 0);
    Header(Trim(parts[0]), Trim(parts[1]))
  }

  function ParseHeaders(lines: seq<string>): seq<Header>
    requires forall i :: 0 <= i < |lines| ==> lines[i] != ""
  {
    seq(|lines|, i requires 0 <= i < |lines| => ParseHeader(lines[i]))
  }

  function ParseRawHttpResponse(input: string): Result<Response, ParseError> {
    var lines := Split(input, CRLF, None, 0);
    if lines == [] then Err(NoLines)
    else
      var words := SplitOn(lines[0], ' ');
      var rawHeaders := ParseHeaders(LinesBefore(lines));
      Ok(Response(
        if |words| > 1 then ParseInt(words[1]) else None,
        if |words| > 2 then Join(words[2..], " ") else "",
        rawHeaders, ToObject(rawHeaders)))
  }

  // ---- Round trip ------------------------------------------------------------------------------

  predicate PrintableHeader(h: Header) {
    && IsTrimmed(h.name) && IsTrimmed(h.value)
    && Excludes(h.name, ':')
    && !Includes(h.name, CRLF) && !Includes(h.value, CRLF)
  }

  predicate Printable(statusMessage: string, headers: seq<Header>) {
    !Includes(statusMessage, CRLF) && forall i :: 0 <= i < |headers| ==> PrintableHeader(headers[i])
  }

  /** A clean line followed by a line break is the first line. */
  lemma FirstLine(line: string, rest: string, done: nat)
    requires !Includes(line, CRLF)
    ensures Split(line + CRLF + rest, CRLF, None, done) == [line] + Split(rest, CRLF, None, done + 1)
  {
    var input := line + CRLF + rest;
    forall i | 0 <= i < |line|
      ensures !OccursAt(input, CRLF, i)
    {
      assert !OccursAt(line, CRLF, i);
      assert input[i + 1] == if i + 1 < |line| then line[i + 1] else '\r';
      assert i + 1 < |line| ==> input[i..i + 2] == line[i..i + 2];
      assert i + 1 == |line| ==> input[i..i + 2][1] == '\r';
    }
    assert OccursAt(input, CRLF, |line|);
    assert EndOfPart(input, CRLF) == |line|;
    assert input[..|line|] == line && Drop(input, |line| + 2) == rest;
  }

  lemma {:induction false} PrintedLines(lines: seq<string>, body: string, done: nat)
    requires forall i :: 0 <= i < |lines| ==> !Includes(lines[i], CRLF)
    ensures lines + [""] <= Split(Join(lines, CRLF) + CRLF + CRLF + body, CRLF, None, done)
    decreases |lines|
  {
    hide Includes, Split;
    if |lines| <= 1 {
      var line := if lines == [] then "" else lines[0];
      assert Join(lines, CRLF) == line;
      EmptyIsClean();
      assert line + CRLF + CRLF + body == line + CRLF + (CRLF + body);
      FirstLine(line, CRLF + body, done);
      assert CRLF + body == "" + CRLF + body;
      FirstLine("", body, done + 1);
    } else {
      JoinCons(lines, CRLF);
      var rest := Join(lines[1..], CRLF) + CRLF + CRLF + body;
      assert Join(lines, CRLF) + CRLF + CRLF + body == lines[0] + CRLF + rest;
      FirstLine(lines[0], rest, done);
      PrintedLines(lines[1..], body, done + 1);
      assert lines + [""] == [lines[0]] + (lines[1..] + [""]);
    }
  }

  lemma EmptyIsClean()
    ensures !Includes("", CRLF)
  {
  }

  lemma SubstringIsClean(before: string, s: string, after: string, part: string)
    requires !Includes(before + s + after, part)
    ensures !Includes(s, part)
  {
    forall at | 0 <= at <= |s|
      ensures !OccursAt(s, part, at)
    {
      assert !OccursAt(before + s + after, part, |before| + at);
      if at + |part| <= |s| {
        var whole, shifted := before + s + after, |before| + at;
        assert forall i :: at <= i < at + |part| ==> s[i] == whole[|before| + i];
        assert s[at..at + |part|] == whole[shifted..shifted + |part|];
      }
    }
  }

  /** Joining clean pieces without a line break's first character next to its second stays clean. */
  lemma JoinedIsClean(a: string, b: string, separator: string)
    requires !Includes(a, CRLF) && !Includes(b, CRLF)
    requires |separator| > 0 && Excludes(separator, '\r') && Excludes(separator, '\n')
    ensures !Includes(a + separator + b, CRLF)
  {
    var s := a + separator + b;
    forall at | 0 <= at <= |s|
      ensures !OccursAt(s, CRLF, at)
    {
      if at + 2 <= |s| {
        assert s[at..at + 2][0] == s[at] && s[at..at + 2][1] == s[at + 1];
        if at + 2 <= |a| {
          assert !OccursAt(a, CRLF, at);
          assert s[at..at + 2] == a[at..at + 2];
        } else if at >= |a| + |separator| {
          var k := at - |a| - |separator|;
          assert !OccursAt(b, CRLF, k);
          assert s[at..at + 2] == b[k..k + 2];
        } else if at >= |a| {
          assert s[at] == separator[at - |a|];
        } else {
          assert s[at + 1] == separator[0];
        }
      }
    }
  }

  lemma TrimIsTrimmed(s: string) returns (before: string, after: string)
    ensures IsTrimmed(Trim(s)) && s == before + Trim(s) + after
  {
    hide IsSpace, TrimStart, TrimEnd;
    var start := TrimStart(s);
    TrimStartIs(s);
    TrimEndIs(start);
    before, after := s[..|s| - |start|], start[|Trim(s)|..];
    assert start == Trim(s) + after;
    assert Trim(s) != "" ==> Trim(s)[0] == start[0];
  }

  lemma TrimmedStays(s: string)
    requires IsTrimmed(s)
    ensures Trim(s) == s && Trim(" " + s) == s
  {
    assert (" " + s)[1..] == s;
    assert TrimStart(" " + s) == TrimStart(s) == s;
  }

  lemma LineParts(line: string)
    requires line != ""
    ensures var end := EndOfPart(line, ":");
      && Split(line, ":", Some(2), 0) == [line[..end], Drop(line, end + 1)]
      && Excludes(line[..end], ':')
  {
    var end := EndOfPart(line, ":");
    forall i | 0 <= i < end
      ensures line[i] != ':'
    {
      assert !OccursAt(line, ":", i);
      assert line[i..i + 1] == [line[i]];
    }
  }

  lemma HeaderComesBack(h: Header)
    requires PrintableHeader(h)
    ensures ParseHeader(HeaderLine(h)) == h
    ensures !Includes(HeaderLine(h), CRLF)
  {
    hide Includes, Trim, Split;
    var line := HeaderLine(h);
    LineParts(line);
    var end := EndOfPart(line, ":");
    assert line[|h.name|] == ':' && OccursAt(line, ":", |h.name|);
    assert end == |h.name|;
    assert line[..end] == h.name && Drop(line, end + 1) == " " + h.value;
    TrimmedStays(h.name);
    TrimmedStays(h.value);
    JoinedIsClean(h.name, h.value, ": ");
  }

  lemma TrimmedPartIsClean(before: string, s: string, after: string)
    requires !Includes(before + s + after, CRLF)
    ensures IsTrimmed(Trim(s)) && !Includes(Trim(s), CRLF)
    ensures Excludes(s, ':') ==> Excludes(Trim(s), ':')
  {
    hide Includes, Trim, OccursAt, IsSpace, IsTrimmed;
    SubstringIsClean(before, s, after, CRLF);
    var start, end := TrimIsTrimmed(s);
    SubstringIsClean(start, Trim(s), end, CRLF);
    assert forall i :: 0 <= i < |Trim(s)| ==> Trim(s)[i] == s[|start| + i];
  }

  lemma ParsedHeaderIsPrintable(line: string)
    requires line != "" && !Includes(line, CRLF)
    ensures PrintableHeader(ParseHeader(line))
  {
    hide Includes, Trim, Split, OccursAt, EndOfPart, IsTrimmed;
    LineParts(line);
    var end := EndOfPart(line, ":");
    var name, value := line[..end], Drop(line, end + 1);
    assert line == "" + name + line[end..];
    TrimmedPartIsClean("", name, line[end..]);
    var before := line[..|line| - |value|];
    assert line == before + value + "";
    TrimmedPartIsClean(before, value, "");
  }

  lemma JoinPrefix(words: seq<string>, x: char, separator: string)
    requires words != []
    ensures Join([[x] + words[0]] + words[1..], separator) == [x] + Join(words, separator)
  {
    hide Join;
    var longer := [[x] + words[0]] + words[1..];
    if |words| == 1 {
      JoinOne(words[0], separator);
      JoinOne(longer[0], separator);
      assert words == [words[0]] && longer == [longer[0]];
    } else {
      JoinCons(words, separator);
      JoinCons(longer, separator);
      assert longer[1..] == words[1..];
    }
  }

  lemma JoinOne(word: string, separator: string)
    ensures Join([word], separator) == word
  {
  }

  lemma {:induction false} WordsJoin(s: string, c: char)
    ensures Join(SplitOn(s, c), [c]) == s
  {
    hide Join;
    if s == "" {
      JoinOne("", [c]);
    } else {
      WordsJoin(s[1..], c);
      var others := SplitOn(s[1..], c);
      if s[0] == c {
        JoinCons([""] + others, [c]);
        assert ([""] + others)[1..] == others;
      } else {
        JoinPrefix(others, s[0], [c]);
      }
      assert s == [s[0]] + s[1..];
    }
  }

  lemma StatusLineComesBack(statusCode: nat, statusMessage: string)
    ensures var words := SplitOn(StatusLine(statusCode, statusMessage), ' ');
      |words| > 2 && ParseInt(words[1]) == Some(statusCode) && Join(words[2..], " ") == statusMessage
  {
    hide ParseInt, Join;
    var rest := Decimal(statusCode) + [' '] + statusMessage;
    assert StatusLine(statusCode, statusMessage) == "HTTP/1.1" + [' '] + rest;
    FirstWord("HTTP/1.1", rest, ' ');
    assert forall i :: 0 <= i < |Decimal(statusCode)| ==> IsDigit(Decimal(statusCode)[i]);
    FirstWord(Decimal(statusCode), statusMessage, ' ');
    ParseIntInvertsDecimal(statusCode);
    var words := SplitOn(StatusLine(statusCode, statusMessage), ' ');
    assert words[2..] == SplitOn(statusMessage, ' ');
    WordsJoin(statusMessage, ' ');
  }

  lemma MessageIsPartOfLine(line: string) returns (before: string)
    requires |SplitOn(line, ' ')| > 2
    ensures line == before + Join(SplitOn(line, ' ')[2..], " ")
  {
    hide SplitOn, Join;
    var words := SplitOn(line, ' ');
    WordsJoin(line, ' ');
    JoinCons(words, " ");
    JoinCons(words[1..], " ");
    assert words[1..][1..] == words[2..];
    before := words[0] + " " + words[1] + " ";
  }

  lemma NoReturnIsClean(s: string)
    requires Excludes(s, '\r')
    ensures !Includes(s, CRLF)
  {
    forall at | 0 <= at <= |s|
      ensures !OccursAt(s, CRLF, at)
    {
      assert at < |s| ==> s[at] != '\r';
      assert at + 2 <= |s| ==> s[at..at + 2][0] == s[at];
    }
  }

  lemma StatusLineIsClean(statusCode: nat, statusMessage: string)
    requires !Includes(statusMessage, CRLF)
    ensures !Includes(StatusLine(statusCode, statusMessage), CRLF) && StatusLine(statusCode, statusMessage) != ""
  {
    hide Includes, Decimal;
    NoReturnIsClean("HTTP/1.1");
    NoReturnIsClean(Decimal(statusCode));
    JoinedIsClean(Decimal(statusCode), statusMessage, " ");
    JoinedIsClean("HTTP/1.1", Decimal(statusCode) + " " + statusMessage, " ");
    assert StatusLine(statusCode, statusMessage) == "HTTP/1.1" + " " + (Decimal(statusCode) + " " + statusMessage);
  }

  lemma ResponseLines(statusCode: nat, statusMessage: string, headers: seq<Header>, body: string)
    requires Printable(statusMessage, headers)
    ensures [StatusLine(statusCode, statusMessage)] + HeaderLines(headers) + [""]
         <= Split(RawResponse(statusCode, statusMessage, headers) + body, CRLF, None, 0)
  {
    hide Includes, Split, Join, StatusLine, HeaderLine, PrintableHeader;
    var first, printed := StatusLine(statusCode, statusMessage), HeaderLines(headers);
    forall i | 0 <= i < |printed|
      ensures !Includes(printed[i], CRLF)
    {
      assert PrintableHeader(headers[i]);
      HeaderComesBack(headers[i]);
    }
    StatusLineIsClean(statusCode, statusMessage);
    var rest := Join(printed, CRLF) + CRLF + CRLF + body;
    assert RawResponse(statusCode, statusMessage, headers) + body == first + CRLF + rest;
    FirstLine(first, rest, 0);
    PrintedLines(printed, body, 1);
    assert [first] + (printed + [""]) == [first] + printed + [""];
  }

  lemma LinesUpToEmpty(lines: seq<string>, front: seq<string>)
    requires front != [] && front + [""] <= lines
    requires forall i :: 0 <= i < |front| ==> front[i] != ""
    ensures LinesBefore(lines) == front[1..]
  {
    assert lines[|front|] == (front + [""])[|front|];
    assert forall i :: 0 <= i < |front| ==> lines[i] == front[i];
    assert EmptyLine(lines) == Some(|front|);
  }

  lemma PrintedResponseParses(statusCode: nat, statusMessage: string, headers: seq<Header>, body: string)
    requires Printable(statusMessage, headers)
    ensures ParseRawHttpResponse(RawResponse(statusCode, statusMessage, headers) + body)
         == Ok(Response(Some(statusCode), statusMessage, headers, ToObject(headers)))
  {
    hide Includes, Split, Join, RawResponse, StatusLine, ParseInt, SplitOn, ParseHeader, ToObject;
    hide LinesBefore, PrintableHeader;
    var first, printed := StatusLine(statusCode, statusMessage), HeaderLines(headers);
    var lines := Split(RawResponse(statusCode, statusMessage, headers) + body, CRLF, None, 0);
    ResponseLines(statusCode, statusMessage, headers, body);
    StatusLineIsClean(statusCode, statusMessage);
    StatusLineComesBack(statusCode, statusMessage);
    forall i | 0 <= i < |printed|
      ensures printed[i] != "" && ParseHeader(printed[i]) == headers[i]
    {
      assert PrintableHeader(headers[i]);
      HeaderComesBack(headers[i]);
    }
    LinesUpToEmpty(lines, [first] + printed);
    assert ([first] + printed)[1..] == printed;
    assert lines[0] == ([first] + printed + [""])[0] == first;
    assert ParseHeaders(printed) == headers;
  }

  /** A status line may lack a message, or hold nothing but one word. */
  lemma ShortStatusLines(version: string, statusCode: nat)
    requires Excludes(version, ' ') && Excludes(version, '\r') && version != ""
    ensures ParseRawHttpResponse(version + " " + Decimal(statusCode)) == Ok(Response(Some(statusCode), "", [], []))
    ensures ParseRawHttpResponse(version) == Ok(Response(None, "", [], []))
  {
    hide Includes, Split, ParseInt, Join;
    var line := version + " " + Decimal(statusCode);
    NoReturnIsClean(line);
    NoReturnIsClean(version);
    OneLine(line);
    OneLine(version);
    FirstWord(version, Decimal(statusCode), ' ');
    LastWord(Decimal(statusCode), ' ');
    LastWord(version, ' ');
    ParseIntInvertsDecimal(statusCode);
    assert line == version + [' '] + Decimal(statusCode);
  }

  lemma OneLine(line: string)
    requires line != "" && !Includes(line, CRLF)
    ensures Split(line, CRLF, None, 0) == [line] && LinesBefore([line]) == []
  {
    SplitStep(line, CRLF, None, 0);
    FirstPart(line, CRLF);
    PartIsClean(line, CRLF);
    assert EndOfPart(line, CRLF) == |line|;
    SplitOfEmpty(CRLF, None, 1);
    assert line[..|line|] == line;
  }

  lemma ParsedIsPrintable(input: string, response: Response)
    requires ParseRawHttpResponse(input) == Ok(response)
    ensures Printable(response.statusMessage, response.rawHeaders)
  {
    hide Includes, Split, Join, ParseInt, SplitOn, ParseHeader, ToObject, PrintableHeader;
    var lines := Split(input, CRLF, None, 0);
    SplitLosesNothing(input, CRLF, 0);
    EmptyIsClean();
    if |SplitOn(lines[0], ' ')| > 2 {
      var before := MessageIsPartOfLine(lines[0]);
      assert lines[0] == before + response.statusMessage + "";
      SubstringIsClean(before, response.statusMessage, "", CRLF);
    }
    var before := LinesBefore(lines);
    forall i | 0 <= i < |before|
      ensures PrintableHeader(ParseHeader(before[i]))
    {
      assert before[i] in lines;
      ParsedHeaderIsPrintable(before[i]);
    }
  }

  /**
   * Parsing a printed response followed by any body gives its status, message and headers back in order
   * exactly when they are printable: no line breaks, trimmed names and values, and no colon in a name.
   */
  lemma ResponseComesBackIff(statusCode: nat, statusMessage: string, headers: seq<Header>, body: string)
    ensures ParseRawHttpResponse(RawResponse(statusCode, statusMessage, headers) + body)
         == Ok(Response(Some(statusCode), statusMessage, headers, ToObject(headers)))
      <==> Printable(statusMessage, headers)
  {
    hide ParseRawHttpResponse, RawResponse, Printable, ToObject;
    var expected := Response(Some(statusCode), statusMessage, headers, ToObject(headers));
    if Printable(statusMessage, headers) {
      PrintedResponseParses(statusCode, statusMessage, headers, body);
    } else if ParseRawHttpResponse(RawResponse(statusCode, statusMessage, headers) + body) == Ok(expected) {
      ParsedIsPrintable(RawResponse(statusCode, statusMessage, headers) + body, expected);
    }
  }

  /** Only an empty input is an error. */
  lemma OnlyEmptyInputFails(input: string)
    ensures ParseRawHttpResponse(input).Err? <==> input == ""
  {
  }
}
