/** The text exchanged between the aggregation server and its clients: the
    response frame the server writes (`sendResponse`), the way a
    `Lamport-Clock` or `Content-Length` header line is turned into a number,
    and the loop both clients run over the response lines to find the server's
    clock. */
module Wire {
  import opened JavaText

  /** How one request, or one run of a client, ends: normally, or with an
      exception that the program does not catch. */
  datatype Outcome = Completed | Crashed(reason: string)

  const CrLf: string := "\r\n"

  /** A line of text followed by its terminator. */
  function Line(text: string): string {
    text + CrLf
  }

  /** The frame `sendResponse` writes: a status line, the sender's clock, the
      message length, a blank line and the message. */
  function Response(status: string, message: string, time: int): string {
    Line("HTTP/1.1 " + status) +
    Line("Lamport-Clock: " + IntToString(time)) +
    Line("Content-Length: " + IntToString(|message|)) +
    CrLf +
    message
  }

  /** `Integer.parseInt(line.split(": ")[1])`; `None` when there is no second
      piece (an index out of bounds) or it is not a number. */
  function ClockHeaderValue(line: string): Option<int> {
    var parts := Split(line, ": ");
    if |parts| < 2 then None else ParseInt(parts[1])
  }

  /** `Integer.parseInt(header.split(":")[1].trim())`; `None` as above. */
  function ContentLengthValue(header: string): Option<int> {
    var parts := Split(header, ":");
    if |parts| < 2 then None else ParseInt(Trim(parts[1]))
  }

  /** A header name, a separator and a value split into exactly those two
      pieces when neither piece contains the separator's first character. */
  lemma SplitNameValue(name: string, sep: string, value: string)
    requires sep != [] && value != []
    requires Lacks(name, sep[0]) && Lacks(value, sep[0])
    ensures Split(name + sep + value, sep) == [name, value]
  {
    SplitAllFirst(name, sep, value);
    SplitAllWhole(value, sep);
  }

  /** A header written as name, ": " and an `int` reads back as that `int`. */
  lemma ClockHeaderOf(name: string, n: int)
    requires Lacks(name, ':') && IsInt32(n)
    ensures ClockHeaderValue(name + ": " + IntToString(n)) == Some(n)
  {
    IntToStringPlain(n);
    SplitNameValue(name, ": ", IntToString(n));
    ParseIntToString(n);
  }

  /** The clock line of a frame reads back as the clock it carries. */
  lemma ClockLineValue(time: int)
    requires IsInt32(time)
    ensures ClockHeaderValue("Lamport-Clock: " + IntToString(time)) == Some(time)
  {
    var digits := IntToString(time);
    assert "Lamport-Clock" + ": " + digits == "Lamport-Clock: " + digits by {}
    ClockHeaderOf("Lamport-Clock", time);
  }

  /** One leading space is trimmed off a printed `int`, and nothing else. */
  lemma TrimSpacedInt(n: int)
    ensures Trim(" " + IntToString(n)) == IntToString(n)
  {
    var digits := IntToString(n);
    IntToStringChars(n);
    assert (" " + digits)[1..] == digits;
    assert TrimLeading(" " + digits) == digits;
    TrimUnchanged(digits);
  }

  /** The Content-Length header the server and the content server write reads
      back as the length that was written. */
  lemma ContentLengthOf(n: nat)
    requires n <= IntMax
    ensures ContentLengthValue("Content-Length: " + IntToString(n)) == Some(n)
  {
    var digits := IntToString(n);
    IntToStringPlain(n);
    assert Lacks(" " + digits, ':');
    assert "Content-Length: " + digits == "Content-Length" + ":" + (" " + digits);
    SplitNameValue("Content-Length", ":", " " + digits);
    TrimSpacedInt(n);
    ParseIntToString(n);
  }

  /** Two terminated lines read back as themselves, then whatever follows. */
  lemma TwoLines(a: string, b: string, tail: string)
    requires NoLineBreak(a) && NoLineBreak(b)
    ensures ReadLines(Line(a) + (Line(b) + tail)) == [a, b] + ReadLines(tail)
  {
    ReadLinesLine(a, Line(b) + tail);
    ReadLinesLine(b, tail);
  }

  /** Three terminated header lines and a blank line read back as four lines,
      then reading goes on with whatever follows. */
  lemma HeaderBlockLines(statusLine: string, clockLine: string, lengthLine: string, tail: string)
    requires NoLineBreak(statusLine) && NoLineBreak(clockLine) && NoLineBreak(lengthLine)
    ensures ReadLines(Line(statusLine) + (Line(clockLine) + (Line(lengthLine) + (Line("") + tail)))) ==
      [statusLine, clockLine, lengthLine, ""] + ReadLines(tail)
  {
    TwoLines(statusLine, clockLine, Line(lengthLine) + (Line("") + tail));
    ReadLinesLine(lengthLine, Line("") + tail);
    ReadLinesLine("", tail);
  }

  /** Four terminated texts and a message, re-bracketed to the right. */
  lemma FrameShape(s: string, c: string, l: string, message: string, rest: string)
    ensures Line(s) + Line(c) + Line(l) + CrLf + message + rest ==
      Line(s) + (Line(c) + (Line(l) + (Line("") + (message + rest))))
  {
    assert Line("") == CrLf by {
      assert "" + CrLf == CrLf;
    }
  }

  /** The frame is its four terminated lines followed by the message. */
  lemma ResponseShape(status: string, message: string, time: int, rest: string)
    ensures Response(status, message, time) + rest ==
      Line("HTTP/1.1 " + status) + (Line("Lamport-Clock: " + IntToString(time)) +
      (Line("Content-Length: " + IntToString(|message|)) + (Line("") + (message + rest))))
  {
    FrameShape("HTTP/1.1 " + status, "Lamport-Clock: " + IntToString(time),
      "Content-Length: " + IntToString(|message|), message, rest);
  }

  lemma HeaderLinesPlain(status: string, message: string, time: int)
    requires NoLineBreak(status)
    ensures NoLineBreak("HTTP/1.1 " + status)
    ensures NoLineBreak("Lamport-Clock: " + IntToString(time))
    ensures NoLineBreak("Content-Length: " + IntToString(|message|))
  {
    assert NoLineBreak("HTTP/1.1 ") && NoLineBreak("Lamport-Clock: ") && NoLineBreak("Content-Length: ");
    NoLineBreakAppend("HTTP/1.1 ", status);
    assert NoLineBreak("Lamport-Clock: " + IntToString(time)) by {
      IntToStringPlain(time);
      NoLineBreakAppend("Lamport-Clock: ", IntToString(time));
    }
    assert NoLineBreak("Content-Length: " + IntToString(|message|)) by {
      IntToStringPlain(|message|);
      NoLineBreakAppend("Content-Length: ", IntToString(|message|));
    }
  }

  /** What a reader sees of a frame followed by more text: the three header
      lines and the blank line, then the lines of the message run on into
      whatever follows it. */
  lemma ResponseLines(status: string, message: string, time: int, rest: string)
    requires NoLineBreak(status)
    ensures ReadLines(Response(status, message, time) + rest) ==
      ["HTTP/1.1 " + status,
       "Lamport-Clock: " + IntToString(time),
       "Content-Length: " + IntToString(|message|),
       ""] + ReadLines(message + rest)
  {
    HeaderLinesPlain(status, message, time);
    ResponseShape(status, message, time, rest);
    HeaderBlockLines("HTTP/1.1 " + status, "Lamport-Clock: " + IntToString(time),
      "Content-Length: " + IntToString(|message|), message + rest);
  }

  lemma ReadLinesLine(a: string, b: string)
    requires NoLineBreak(a)
    ensures ReadLines(Line(a) + b) == [a] + ReadLines(b)
  {
    assert Line(a) + b == a + "\r\n" + b;
    ReadLinesCrLf(a, b);
  }

  /** The frame round trip: its clock header reads back as the time it was
      given and its length header as the message length. */
  lemma ResponseRoundTrip(status: string, message: string, time: int)
    requires NoLineBreak(status) && IsInt32(time) && |message| <= IntMax
    ensures var lines := ReadLines(Response(status, message, time));
      |lines| >= 4 && lines[0] == "HTTP/1.1 " + status && lines[3] == "" &&
      ClockHeaderValue(lines[1]) == Some(time) &&
      ContentLengthValue(lines[2]) == Some(|message|)
  {
    ResponseAlone(status, message, time);
    ClockLineValue(time);
    ContentLengthOf(|message|);
    HeaderPositions(ReadLines(Response(status, message, time)), "HTTP/1.1 " + status,
      "Lamport-Clock: " + IntToString(time), "Content-Length: " + IntToString(|message|),
      ReadLines(message));
  }

  /** A frame read on its own: the header block, then the message's lines. */
  lemma ResponseAlone(status: string, message: string, time: int)
    requires NoLineBreak(status)
    ensures ReadLines(Response(status, message, time)) ==
      ["HTTP/1.1 " + status, "Lamport-Clock: " + IntToString(time), "Content-Length: " + IntToString(|message|), ""] +
      ReadLines(message)
  {
    ResponseLines(status, message, time, []);
    assert Response(status, message, time) + [] == Response(status, message, time);
    assert message + [] == message;
  }

  /** Four header lines followed by the rest, read back at their positions. */
  lemma HeaderPositions(lines: seq<string>, statusLine: string, clockLine: string, lengthLine: string,
                        rest: seq<string>)
    requires lines == [statusLine, clockLine, lengthLine, ""] + rest
    ensures |lines| >= 4 && lines[0] == statusLine && lines[1] == clockLine &&
      lines[2] == lengthLine && lines[3] == ""
  {
  }

  /** The message is exactly what follows the header block, so the length the
      header announces is the length of what is left of the frame. */
  lemma ResponseBody(status: string, message: string, time: int)
    ensures var frame := Response(status, message, time);
      |message| <= |frame| && frame[|frame| - |message|..] == message
  {
    var frame := Response(status, message, time);
    var head := Line("HTTP/1.1 " + status) + Line("Lamport-Clock: " + IntToString(time)) +
      Line("Content-Length: " + IntToString(|message|)) + CrLf;
    assert frame == head + message;
    assert frame[|head|..] == message;
  }

  /** A frame written straight after text that did not end its line: the
      text runs into the frame's status line, and the rest reads as before. */
  lemma GluedResponseLines(glue: string, status: string, message: string, time: int, rest: string)
    requires NoLineBreak(glue) && NoLineBreak(status)
    ensures ReadLines(glue + Response(status, message, time) + rest) ==
      [glue + "HTTP/1.1 " + status,
       "Lamport-Clock: " + IntToString(time),
       "Content-Length: " + IntToString(|message|),
       ""] + ReadLines(message + rest)
  {
    HeaderLinesPlain(status, message, time);
    NoLineBreakAppend(glue, "HTTP/1.1 " + status);
    GluedShape(glue, status, message, time, rest);
    HeaderBlockLines(glue + "HTTP/1.1 " + status, "Lamport-Clock: " + IntToString(time),
      "Content-Length: " + IntToString(|message|), message + rest);
  }

  lemma GluedShape(glue: string, status: string, message: string, time: int, rest: string)
    ensures glue + Response(status, message, time) + rest ==
      Line(glue + "HTTP/1.1 " + status) + (Line("Lamport-Clock: " + IntToString(time)) +
      (Line("Content-Length: " + IntToString(|message|)) + (Line("") + (message + rest))))
  {
    var s := "HTTP/1.1 " + status;
    var c := "Lamport-Clock: " + IntToString(time);
    var l := "Content-Length: " + IntToString(|message|);
    assert Response(status, message, time) == Line(s) + Line(c) + Line(l) + CrLf + message;
    GluedFrameShape(glue, s, c, l, message, rest);
  }

  /** Text before a frame joins its first line; the rest re-brackets to the
      right. */
  lemma GluedFrameShape(glue: string, s: string, c: string, l: string, message: string, rest: string)
    ensures glue + (Line(s) + Line(c) + Line(l) + CrLf + message) + rest ==
      Line(glue + s) + (Line(c) + (Line(l) + (Line("") + (message + rest))))
  {
    GlueAssoc(glue, Line(s), Line(c), Line(l), CrLf, message, rest);
    assert glue + Line(s) == Line(glue + s) by {
      assert glue + (s + CrLf) == (glue + s) + CrLf;
    }
    assert Line("") == CrLf by {
      assert "" + CrLf == CrLf;
    }
  }

  lemma GlueAssoc(g: string, a: string, b: string, c: string, d: string, m: string, r: string)
    ensures g + (a + b + c + d + m) + r == (g + a) + (b + (c + (d + (m + r))))
  {
  }

  // ---------------------------------------------------------------------------
  // The clients' scan of the response for the server's clock

  /** The response loop of both clients: every line that starts with `prefix`
      overwrites the received clock with its value; `None` when such a line
      does not parse, which throws out of the loop. */
  function ScanClock(lines: seq<string>, prefix: string, received: int): Option<int>
    decreases |lines|
  {
    if lines == [] then Some(received)
    else if StartsWith(lines[0], prefix) then
      match ClockHeaderValue(lines[0])
      case None => None
      case Some(v) => ScanClock(lines[1..], prefix, v)
    else ScanClock(lines[1..], prefix, received)
  }

  /** The index of the last line that starts with `prefix`. */
  function LastWith(lines: seq<string>, prefix: string): (r: Option<nat>)
    ensures r.Some? ==> r.value < |lines| && StartsWith(lines[r.value], prefix)
    ensures r.Some? ==> forall j :: r.value < j < |lines| ==> !StartsWith(lines[j], prefix)
    ensures r.None? ==> forall j :: 0 <= j < |lines| ==> !StartsWith(lines[j], prefix)
    decreases |lines|
  {
    if lines == [] then None
    else if StartsWith(lines[|lines| - 1], prefix) then Some(|lines| - 1)
    else LastWith(lines[..|lines| - 1], prefix)
  }

  /** Every line that starts with `prefix` carries a readable clock. */
  predicate ClockLinesParse(lines: seq<string>, prefix: string) {
    forall i :: 0 <= i < |lines| && StartsWith(lines[i], prefix) ==> ClockHeaderValue(lines[i]).Some?
  }

  /** What the scan is meant to find: the value on the last matching line, or
      `received` when no line matches, provided no matching line is malformed. */
  function LastClock(lines: seq<string>, prefix: string, received: int): Option<int> {
    if !ClockLinesParse(lines, prefix) then None
    else match LastWith(lines, prefix)
      case None => Some(received)
      case Some(i) => ClockHeaderValue(lines[i])
  }

  /** Dropping the first line shifts the last match by one. */
  lemma LastWithTail(lines: seq<string>, prefix: string)
    requires lines != []
    ensures LastWith(lines, prefix) ==
      match LastWith(lines[1..], prefix)
      case Some(j) => Some(j + 1)
      case None => if StartsWith(lines[0], prefix) then Some(0) else None
  {
    assert forall j :: 1 <= j < |lines| ==> lines[j] == lines[1..][j - 1];
  }

  /** The scan finds exactly the value on the last matching line (or the
      initial value when there is none), and fails exactly when some matching
      line is malformed. */
  lemma {:induction false} ScanClockIsLast(lines: seq<string>, prefix: string, received: int)
    ensures ScanClock(lines, prefix, received) == LastClock(lines, prefix, received)
    decreases |lines|
  {
    if lines != [] {
      var tail := lines[1..];
      LastClockTail(lines, prefix, received);
      if StartsWith(lines[0], prefix) {
        match ClockHeaderValue(lines[0])
        case None =>
        case Some(v) => ScanClockIsLast(tail, prefix, v);
      } else {
        ScanClockIsLast(tail, prefix, received);
      }
    }
  }

  /** The specification of the scan, unrolled by one line. */
  lemma LastClockTail(lines: seq<string>, prefix: string, received: int)
    requires lines != []
    ensures LastClock(lines, prefix, received) ==
      if !StartsWith(lines[0], prefix) then LastClock(lines[1..], prefix, received)
      else match ClockHeaderValue(lines[0])
        case None => None
        case Some(v) => LastClock(lines[1..], prefix, v)
  {
    var tail := lines[1..];
    LastWithTail(lines, prefix);
    ClockLinesParseTail(lines, prefix);
    if StartsWith(lines[0], prefix) {
      match ClockHeaderValue(lines[0])
      case None =>
      case Some(v) =>
        match LastWith(tail, prefix)
        case None =>
        case Some(j) => assert lines[j + 1] == tail[j];
    } else {
      match LastWith(tail, prefix)
      case None =>
      case Some(j) => assert lines[j + 1] == tail[j];
    }
  }

  /** Every matching line parses exactly when the first one does (if it
      matches) and every matching line after it does. */
  lemma ClockLinesParseTail(lines: seq<string>, prefix: string)
    requires lines != []
    ensures ClockLinesParse(lines, prefix) <==>
      (StartsWith(lines[0], prefix) ==> ClockHeaderValue(lines[0]).Some?) &&
      ClockLinesParse(lines[1..], prefix)
  {
    var tail := lines[1..];
    if ClockLinesParse(lines, prefix) {
      forall i | 0 <= i < |tail| && StartsWith(tail[i], prefix)
        ensures ClockHeaderValue(tail[i]).Some?
      {
        assert tail[i] == lines[i + 1];
      }
    }
    if (StartsWith(lines[0], prefix) ==> ClockHeaderValue(lines[0]).Some?) && ClockLinesParse(tail, prefix) {
      forall i | 0 <= i < |lines| && StartsWith(lines[i], prefix)
        ensures ClockHeaderValue(lines[i]).Some?
      {
        if i > 0 { assert lines[i] == tail[i - 1]; }
      }
    }
  }

  /** Scanning two runs of lines is scanning the second from where the first
      left off. */
  lemma {:induction false} ScanClockAppend(a: seq<string>, b: seq<string>, prefix: string, received: int)
    ensures ScanClock(a + b, prefix, received) ==
      match ScanClock(a, prefix, received)
      case None => None
      case Some(x) => ScanClock(b, prefix, x)
    decreases |a|
  {
    if a == [] {
      assert a + b == b;
    } else {
      assert (a + b)[0] == a[0] && (a + b)[1..] == a[1..] + b;
      if StartsWith(a[0], prefix) {
        match ClockHeaderValue(a[0])
        case None =>
        case Some(v) => ScanClockAppend(a[1..], b, prefix, v);
      } else {
        ScanClockAppend(a[1..], b, prefix, received);
      }
    }
  }

  /** A line whose first character differs from the prefix's does not start
      with it. */
  lemma OtherFirstChar(line: string, prefix: string)
    requires prefix != [] && (line == [] || line[0] != prefix[0])
    ensures !StartsWith(line, prefix)
  {
    if |prefix| <= |line| {
      assert line[..|prefix|][0] != prefix[0];
    }
  }

  /** The clock line of a frame starts with both prefixes the clients look
      for: the GET client's with the colon and the content server's without. */
  lemma ClockLineMatches(time: int, prefix: string)
    requires prefix == "Lamport-Clock" || prefix == "Lamport-Clock:"
    ensures StartsWith("Lamport-Clock: " + IntToString(time), prefix)
  {
    var line := "Lamport-Clock: " + IntToString(time);
    assert line[..|prefix|] == "Lamport-Clock: "[..|prefix|];
  }

  /** The header block of a frame, scanned by either client, yields the
      frame's clock whatever was found before it. */
  lemma FrameHeaderScan(statusLine: string, time: int, length: int, prefix: string, received: int)
    requires IsInt32(time)
    requires prefix == "Lamport-Clock" || prefix == "Lamport-Clock:"
    requires !StartsWith(statusLine, prefix)
    ensures ScanClock([statusLine, "Lamport-Clock: " + IntToString(time), "Content-Length: " + IntToString(length), ""],
      prefix, received) == Some(time)
  {
    var lines := [statusLine, "Lamport-Clock: " + IntToString(time), "Content-Length: " + IntToString(length), ""];
    ClockLineMatches(time, prefix);
    ClockLineValue(time);
    OtherFirstChar("Content-Length: " + IntToString(length), prefix);
    OtherFirstChar("", prefix);
    assert ScanClock(lines, prefix, received) == ScanClock(lines[1..], prefix, received);
    assert ScanClock(lines[1..], prefix, received) == ScanClock(lines[2..], prefix, time);
    assert ScanClock(lines[2..], prefix, time) == ScanClock(lines[3..], prefix, time);
    assert ScanClock(lines[3..], prefix, time) == ScanClock(lines[4..], prefix, time);
    assert lines[4..] == [];
  }
}
