/** The three programs talking to each other: what the aggregation server reads
    from the requests the two clients write, and what the clients read from the
    frames the server writes. Each lemma follows one exchange from the text on
    the wire to the clocks and the store it leaves behind. */
module Exchange {
  import opened JavaText
  import opened Wire
  import opened Lamport
  import Aggregation
  import GetClient
  import ContentServer

  // ---------------------------------------------------------------------------
  // Reading the requests

  /** Re-bracketing a chain of five texts to the right. */
  lemma Assoc5(p: string, q: string, r: string, s: string, t: string)
    ensures p + q + r + s + t == p + (q + (r + (s + t)))
  {
  }

  /** Re-bracketing a chain of eight texts to the right. */
  lemma Assoc8(p: string, q: string, r: string, s: string, t: string, u: string, v: string, w: string)
    ensures p + q + r + s + t + u + v + w == p + (q + (r + (s + (t + (u + (v + w))))))
  {
  }

  /** Four terminated lines read back as themselves, then whatever follows. */
  lemma FourLines(a: string, b: string, c: string, d: string, tail: string)
    requires NoLineBreak(a) && NoLineBreak(b) && NoLineBreak(c) && NoLineBreak(d)
    ensures ReadLines(Line(a) + (Line(b) + (Line(c) + (Line(d) + tail)))) == [a, b, c, d] + ReadLines(tail)
  {
    TwoLines(a, b, Line(c) + (Line(d) + tail));
    TwoLines(c, d, tail);
  }

  /** A blank line followed by a body reads as "" and the body's lines. */
  lemma BlankThen(body: string)
    ensures ReadLines(CrLf + body) == [""] + ReadLines(body)
  {
    NoLineBreakAppend("", "");
    assert Line("") == CrLf;
    ReadLinesLine("", body);
  }

  /** The GET client's request is four terminated lines and a blank line. */
  lemma GetRequestShape(clock: int)
    ensures GetClient.GetRequest(clock) ==
      Line("GET / HTTP/1.1") + (Line("Host: localhost") + (Line("Connection: close") +
      (Line("Lamport-Clock: " + IntToString(clock)) + CrLf)))
  {
    Assoc5(Line("GET / HTTP/1.1"), Line("Host: localhost"), Line("Connection: close"),
      Line("Lamport-Clock: " + IntToString(clock)), CrLf);
  }

  /** The content server's request is six terminated lines, a blank line and
      the JSON text. */
  lemma PutRequestShape(json: string, clock: int)
    ensures ContentServer.PutRequest(json, clock) ==
      Line("PUT /data HTTP/1.1") + (Line("Host: localhost") + (Line("Content-Type: application/json") +
      (Line("Content-Length: " + IntToString(|json|)) + (Line("Lamport-Clock: " + IntToString(clock)) +
      (Line("Connection: close") + (CrLf + json))))))
  {
    Assoc8(Line("PUT /data HTTP/1.1"), Line("Host: localhost"), Line("Content-Type: application/json"),
      Line("Content-Length: " + IntToString(|json|)), Line("Lamport-Clock: " + IntToString(clock)),
      Line("Connection: close"), CrLf, json);
  }

  /** A header line made of a name and a printed `int` has no line break. */
  lemma NumberLinePlain(name: string, n: int)
    requires NoLineBreak(name)
    ensures NoLineBreak(name + IntToString(n))
  {
    IntToStringPlain(n);
    NoLineBreakAppend(name, IntToString(n));
  }

  /** Four header-block lines and the blank line read back as themselves. */
  lemma FourLinesBlank(a: string, b: string, c: string, d: string)
    requires NoLineBreak(a) && NoLineBreak(b) && NoLineBreak(c) && NoLineBreak(d)
    ensures ReadLines(Line(a) + (Line(b) + (Line(c) + (Line(d) + CrLf)))) == [a, b, c, d, ""]
  {
    FourLines(a, b, c, d, CrLf);
    BlankThen("");
    assert CrLf + "" == CrLf;
  }

  /** Six lines, the blank line and a body read back as the six lines, "" and
      the body's own lines. */
  lemma SixLinesBody(a: string, b: string, c: string, d: string, e: string, f: string, body: string)
    requires NoLineBreak(a) && NoLineBreak(b) && NoLineBreak(c) && NoLineBreak(d)
    requires NoLineBreak(e) && NoLineBreak(f)
    ensures ReadLines(Line(a) + (Line(b) + (Line(c) + (Line(d) + (Line(e) + (Line(f) + (CrLf + body))))))) ==
      [a] + ([b, c, d, e, f, ""] + ReadLines(body))
  {
    FourLines(a, b, c, d, Line(e) + (Line(f) + (CrLf + body)));
    TwoLines(e, f, CrLf + body);
    BlankThen(body);
    SixThenBlank(a, b, c, d, e, f, ReadLines(body));
  }

  /** Regrouping six lines, a blank line and the rest. */
  lemma SixThenBlank(a: string, b: string, c: string, d: string, e: string, f: string, rest: seq<string>)
    ensures [a, b, c, d] + ([e, f] + ([""] + rest)) == [a] + ([b, c, d, e, f, ""] + rest)
  {
    assert [e, f] + ([""] + rest) == [e, f, ""] + rest;
  }

  /** The server reads the GET client's request as a GET request line followed
      by its three headers. */
  lemma GetRequestRead(clock: int)
    ensures ReadLines(GetClient.GetRequest(clock)) ==
      ["GET / HTTP/1.1", "Host: localhost", "Connection: close", "Lamport-Clock: " + IntToString(clock), ""]
    ensures Aggregation.RouteOf(Some("GET / HTTP/1.1")) == Aggregation.GetRoute
  {
    NumberLinePlain("Lamport-Clock: ", clock);
    GetRequestShape(clock);
    RequestLinesPlain();
    FourLinesBlank("GET / HTTP/1.1", "Host: localhost", "Connection: close", "Lamport-Clock: " + IntToString(clock));
    Aggregation.GetLineRouted();
  }

  lemma RequestLinesPlain()
    ensures NoLineBreak("GET / HTTP/1.1") && NoLineBreak("Host: localhost") && NoLineBreak("Connection: close")
    ensures NoLineBreak("PUT /data HTTP/1.1") && NoLineBreak("Content-Type: application/json")
  {
  }

  /** The content server's request lines, over the printed length and clock. */
  lemma PutLinesOf(length: string, clock: string, json: string)
    requires NoLineBreak(length) && NoLineBreak(clock)
    ensures ReadLines(Line("PUT /data HTTP/1.1") + (Line("Host: localhost") + (Line("Content-Type: application/json") +
      (Line("Content-Length: " + length) + (Line("Lamport-Clock: " + clock) + (Line("Connection: close") + (CrLf + json))))))) ==
      ["PUT /data HTTP/1.1"] + (["Host: localhost", "Content-Type: application/json",
       "Content-Length: " + length, "Lamport-Clock: " + clock, "Connection: close", ""] + ReadLines(json))
  {
    RequestLinesPlain();
    NoLineBreakAppend("Content-Length: ", length);
    NoLineBreakAppend("Lamport-Clock: ", clock);
    SixLinesBody("PUT /data HTTP/1.1", "Host: localhost", "Content-Type: application/json",
      "Content-Length: " + length, "Lamport-Clock: " + clock, "Connection: close", json);
  }

  /** The lines the server reads from the content server's request: the PUT
      line, then the five headers, the blank line and the JSON text's lines. */
  lemma PutRequestLines(json: string, clock: int)
    ensures ReadLines(ContentServer.PutRequest(json, clock)) ==
      ["PUT /data HTTP/1.1"] + (["Host: localhost", "Content-Type: application/json",
       "Content-Length: " + IntToString(|json|), "Lamport-Clock: " + IntToString(clock), "Connection: close", ""] +
      ReadLines(json))
  {
    PutRequestShape(json, clock);
    IntToStringPlain(|json|);
    IntToStringPlain(clock);
    PutLinesOf(IntToString(|json|), IntToString(clock), json);
  }

  /** A header the PUT loop ignores leaves its state alone. */
  lemma ScanSkips(line: string, rest: seq<string>, cl: string, rc: int)
    requires line != "" && !StartsWith(line, "Content-Length:") && !StartsWith(line, "Lamport-Clock:")
    ensures Aggregation.ScanHeaders([line] + rest, cl, rc) == Aggregation.ScanHeaders(rest, cl, rc)
  {
    assert ([line] + rest)[1..] == rest;
  }

  lemma IgnoredHeaders()
    ensures !StartsWith("Host: localhost", "Content-Length:") && !StartsWith("Host: localhost", "Lamport-Clock:")
    ensures !StartsWith("Content-Type: application/json", "Content-Length:")
    ensures !StartsWith("Content-Type: application/json", "Lamport-Clock:")
    ensures !StartsWith("Connection: close", "Content-Length:") && !StartsWith("Connection: close", "Lamport-Clock:")
  {
    OtherFirstChar("Host: localhost", "Content-Length:");
    OtherFirstChar("Host: localhost", "Lamport-Clock:");
    assert "Content-Type: application/json"[..15][8] != "Content-Length:"[8];
    OtherFirstChar("Content-Type: application/json", "Lamport-Clock:");
    assert "Connection: close"[..15][3] != "Content-Length:"[3];
    OtherFirstChar("Connection: close", "Lamport-Clock:");
  }

  /** A line that starts with a name starts with every prefix of the name. */
  lemma LongerName(name: string, prefix: string, value: string)
    requires StartsWith(name, prefix)
    ensures StartsWith(name + value, prefix)
  {
    assert (name + value)[..|prefix|] == name[..|prefix|];
  }

  /** The PUT header loop over the content server's five headers: it skips
      Host, Content-Type and Connection, keeps the Content-Length line and
      the clock, and stops at the blank line. */
  lemma PutHeadersOf(lengthLine: string, clockLine: string, clock: int, tail: seq<string>)
    requires StartsWith(lengthLine, "Content-Length:")
    requires StartsWith(clockLine, "Lamport-Clock:") && !StartsWith(clockLine, "Content-Length:")
    requires ClockHeaderValue(clockLine) == Some(clock)
    ensures Aggregation.ScanHeaders(["Host: localhost", "Content-Type: application/json", lengthLine, clockLine,
      "Connection: close", ""] + tail, "", -1) == Aggregation.Headers(lengthLine, clock)
  {
    var r5 := [""] + tail;
    var r4 := ["Connection: close"] + r5;
    var r3 := [clockLine] + r4;
    var r2 := [lengthLine] + r3;
    var r1 := ["Content-Type: application/json"] + r2;
    var r0 := ["Host: localhost"] + r1;
    assert r0 == ["Host: localhost", "Content-Type: application/json", lengthLine, clockLine,
      "Connection: close", ""] + tail;
    calc {
      Aggregation.ScanHeaders(r0, "", -1);
      { IgnoredHeaders(); ScanSkips("Host: localhost", r1, "", -1); }
      Aggregation.ScanHeaders(r1, "", -1);
      { IgnoredHeaders(); ScanSkips("Content-Type: application/json", r2, "", -1); }
      Aggregation.ScanHeaders(r2, "", -1);
      { assert r2[0] == lengthLine && r2[1..] == r3; }
      Aggregation.ScanHeaders(r3, lengthLine, -1);
      { assert r3[0] == clockLine && r3[1..] == r4; }
      Aggregation.ScanHeaders(r4, lengthLine, clock);
      { IgnoredHeaders(); ScanSkips("Connection: close", r5, lengthLine, clock); }
      Aggregation.ScanHeaders(r5, lengthLine, clock);
    }
  }

  /** The PUT header loop over the content server's headers finds the
      Content-Length line and the sent clock. */
  lemma PutHeadersScan(json: string, clock: int)
    requires IsInt32(clock)
    ensures var headers := ReadLines(ContentServer.PutRequest(json, clock))[1..];
      Aggregation.ScanHeaders(headers, "", -1) ==
        Aggregation.Headers("Content-Length: " + IntToString(|json|), clock)
  {
    var lengthLine := "Content-Length: " + IntToString(|json|);
    var clockLine := "Lamport-Clock: " + IntToString(clock);
    PutRequestLines(json, clock);
    LongerName("Content-Length: ", "Content-Length:", IntToString(|json|));
    ClockLineMatches(clock, "Lamport-Clock:");
    OtherFirstChar(clockLine, "Content-Length:");
    ClockLineValue(clock);
    PutHeadersOf(lengthLine, clockLine, clock, ReadLines(json));
  }

  /** What follows the content server's header block is the JSON text. */
  lemma PutRequestBody(json: string, clock: int)
    ensures var request := ContentServer.PutRequest(json, clock);
      |json| <= |request| && request[|request| - |json|..] == json
  {
    var request := ContentServer.PutRequest(json, clock);
    var head := Line("PUT /data HTTP/1.1") + Line("Host: localhost") + Line("Content-Type: application/json") +
      Line("Content-Length: " + IntToString(|json|)) + Line("Lamport-Clock: " + IntToString(clock)) +
      Line("Connection: close") + CrLf;
    assert request == head + json;
    assert request[|head|..] == json;
  }

  /** The server reads the content server's request as a PUT whose
      Content-Length is the length of the JSON text, which is exactly what
      follows the blank line, and whose clock is the one sent. */
  lemma PutRequestRead(json: string, clock: int)
    requires IsInt32(clock) && |json| <= IntMax
    ensures var lines := ReadLines(ContentServer.PutRequest(json, clock));
      var scan := Aggregation.ScanHeaders(lines[1..], "", -1);
      lines[0] == "PUT /data HTTP/1.1" &&
      Aggregation.RouteOf(Some(lines[0])) == Aggregation.PutRoute &&
      scan == Aggregation.Headers("Content-Length: " + IntToString(|json|), clock) &&
      Aggregation.ContentLength(scan.contentLengthHeader) == Some(|json|)
    ensures var request := ContentServer.PutRequest(json, clock);
      |json| <= |request| && request[|request| - |json|..] == json
  {
    PutRequestLines(json, clock);
    Aggregation.PutLineRouted();
    PutHeadersScan(json, clock);
    ContentLengthOf(|json|);
    PutRequestBody(json, clock);
  }

  // ---------------------------------------------------------------------------
  // Reading the frames

  lemma FrameTextsPlain()
    ensures NoLineBreak("200 OK") && NoLineBreak("201 Created")
    ensures NoLineBreak(Aggregation.PutAck) && NoLineBreak(Aggregation.PutDone) && Aggregation.PutDone != []
  {
  }

  /** A frame whose message is one line reads back as its four header-block
      lines and the message. */
  lemma FrameRead(status: string, message: string, time: int)
    requires NoLineBreak(status) && message != [] && NoLineBreak(message)
    ensures ReadLines(Response(status, message, time)) ==
      ["HTTP/1.1 " + status, "Lamport-Clock: " + IntToString(time), "Content-Length: " + IntToString(|message|), ""] +
      [message]
  {
    ResponseLines(status, message, time, "");
    assert Response(status, message, time) + "" == Response(status, message, time);
    assert message + "" == message;
    ReadLinesLast(message);
  }

  /** Either client scanning a frame's header block and a message line that
      is not a clock line finds the frame's clock. */
  lemma FrameClock(statusLine: string, time: int, length: int, message: string, prefix: string, received: int)
    requires IsInt32(time)
    requires prefix == "Lamport-Clock" || prefix == "Lamport-Clock:"
    requires statusLine != [] && statusLine[0] == 'H' && message != [] && message[0] != 'L'
    ensures ScanClock([statusLine, "Lamport-Clock: " + IntToString(time), "Content-Length: " + IntToString(length), ""] +
      [message], prefix, received) == Some(time)
  {
    var head := [statusLine, "Lamport-Clock: " + IntToString(time), "Content-Length: " + IntToString(length), ""];
    OtherFirstChar(statusLine, prefix);
    FrameHeaderScan(statusLine, time, length, prefix, received);
    ScanClockAppend(head, [message], prefix, received);
    OtherFirstChar(message, prefix);
    assert [message][1..] == [];
  }

  // ---------------------------------------------------------------------------
  // A GET exchange

  /** The server answers the GET client's request with one frame: its clock
      after one tick and its store's encoding. */
  lemma GetServed(clientClock: int, serverClock: int, store: Aggregation.Store,
                  encode: Aggregation.Store -> string, payload: Option<Aggregation.Store>)
    ensures var lines := ReadLines(GetClient.GetRequest(clientClock));
      Aggregation.Serve(serverClock, store, Aggregation.Request(Some(lines[0]), lines[1..], payload), encode) ==
        Aggregation.Served(serverClock + 1, store, [Response("200 OK", encode(store), serverClock + 1)], Completed)
  {
    GetRequestRead(clientClock);
  }

  /** The GET client's fetch once the reply's last clock line is known. */
  lemma FetchWith(clientClock: int, reply: seq<string>, time: int)
    requires ScanClock(reply, "Lamport-Clock:", -1) == Some(time)
    ensures var fetched := GetClient.Fetch(clientClock, reply);
      fetched.request == GetClient.GetRequest(clientClock + 1) && fetched.outcome == Completed &&
      fetched.clock == clientClock + 1 + time + 1
  {
  }

  /** Either client reading one frame whose message is one line that is not
      a clock line: it sees the frame's lines and keeps the frame's clock. */
  lemma OneFrameScan(status: string, message: string, time: int, prefix: string)
    requires IsInt32(time)
    requires prefix == "Lamport-Clock" || prefix == "Lamport-Clock:"
    requires NoLineBreak(status) && message != [] && NoLineBreak(message) && message[0] != 'L'
    ensures ReadLines(Response(status, message, time)) ==
      ["HTTP/1.1 " + status, "Lamport-Clock: " + IntToString(time), "Content-Length: " + IntToString(|message|), ""] +
      [message]
    ensures ScanClock(ReadLines(Response(status, message, time)), prefix, -1) == Some(time)
  {
    FrameRead(status, message, time);
    FrameClock("HTTP/1.1 " + status, time, |message|, message, prefix, -1);
  }

  /** The GET client reading a one-frame reply whose message is one line
      adds the frame's clock to its own. */
  lemma GetFetched(clientClock: int, json: string, time: int)
    requires IsInt32(time) && json != [] && NoLineBreak(json) && json[0] == '{'
    ensures var fetched := GetClient.Fetch(clientClock, ReadLines(Response("200 OK", json, time)));
      fetched.request == GetClient.GetRequest(clientClock + 1) && fetched.outcome == Completed &&
      fetched.clock == clientClock + 1 + time + 1
  {
    var reply := ReadLines(Response("200 OK", json, time));
    assert ScanClock(reply, "Lamport-Clock:", -1) == Some(time) by {
      FrameTextsPlain();
      OneFrameScan("200 OK", json, time, "Lamport-Clock:");
    }
    FetchWith(clientClock, reply, time);
  }

  /** The GET client fetching from the server: the server ticks once and
      sends its store's encoding; the client sees that encoding as the one
      body line, finds the server's clock and ends strictly after it. */
  lemma GetExchange(clientClock: int, serverClock: int, store: Aggregation.Store,
                    encode: Aggregation.Store -> string, payload: Option<Aggregation.Store>)
    requires IsInt32(serverClock + 1)
    requires NoLineBreak(encode(store)) && encode(store) != [] && encode(store)[0] == '{'
    ensures var request := GetClient.GetRequest(clientClock + 1);
      var lines := ReadLines(request);
      var served := Aggregation.Serve(serverClock, store, Aggregation.Request(Some(lines[0]), lines[1..], payload), encode);
      served.clock == serverClock + 1 && served.store == store &&
      served.frames == [Response("200 OK", encode(store), served.clock)] &&
      var fetched := GetClient.Fetch(clientClock, ReadLines(served.frames[0]));
      fetched.request == request && fetched.outcome == Completed &&
      fetched.clock == clientClock + 1 + served.clock + 1 &&
      (clientClock >= 0 && serverClock >= 0 ==> fetched.clock > served.clock && fetched.clock > clientClock + 1)
  {
    GetServed(clientClock + 1, serverClock, store, encode, payload);
    GetFetched(clientClock, encode(store), serverClock + 1);
  }

  // ---------------------------------------------------------------------------
  // A PUT exchange

  /** Two frames read back, the first's one-line message running into the
      second's status line. */
  lemma TwoFramesLines(status1: string, message1: string, t1: int, status2: string, message2: string, t2: int)
    requires NoLineBreak(status1) && NoLineBreak(message1) && NoLineBreak(status2)
    requires message2 != [] && NoLineBreak(message2)
    ensures ReadLines(Response(status1, message1, t1) + Response(status2, message2, t2)) ==
      ["HTTP/1.1 " + status1, "Lamport-Clock: " + IntToString(t1), "Content-Length: " + IntToString(|message1|), ""] +
      ([message1 + "HTTP/1.1 " + status2, "Lamport-Clock: " + IntToString(t2),
        "Content-Length: " + IntToString(|message2|), ""] + [message2])
  {
    var second := Response(status2, message2, t2);
    ResponseLines(status1, message1, t1, second);
    GluedResponseLines(message1, status2, message2, t2, "");
    assert message1 + second + "" == message1 + second;
    assert message2 + "" == message2;
    ReadLinesLast(message2);
  }

  /** Scanning two frames' header blocks, each followed by a line that is
      not a clock line, finds the second frame's clock. */
  lemma TwoFramesClock(status1: string, t1: int, length1: int, glued: string, t2: int, length2: int,
                       message: string, prefix: string)
    requires IsInt32(t1) && IsInt32(t2)
    requires prefix == "Lamport-Clock" || prefix == "Lamport-Clock:"
    requires status1 != [] && status1[0] == 'H' && glued != [] && glued[0] != 'L'
    requires message != [] && message[0] != 'L'
    ensures ScanClock([status1, "Lamport-Clock: " + IntToString(t1), "Content-Length: " + IntToString(length1), ""] +
      ([glued, "Lamport-Clock: " + IntToString(t2), "Content-Length: " + IntToString(length2), ""] + [message]),
      prefix, -1) == Some(t2)
  {
    var first := [status1, "Lamport-Clock: " + IntToString(t1), "Content-Length: " + IntToString(length1), ""];
    var second := [glued, "Lamport-Clock: " + IntToString(t2), "Content-Length: " + IntToString(length2), ""];
    OtherFirstChar(status1, prefix);
    OtherFirstChar(glued, prefix);
    FrameHeaderScan(status1, t1, length1, prefix, -1);
    ScanClockAppend(first, second + [message], prefix, -1);
    FrameHeaderScan(glued, t2, length2, prefix, t1);
    ScanClockAppend(second, [message], prefix, t1);
    OtherFirstChar(message, prefix);
    assert [message][1..] == [];
  }

  /** Either client reading two frames, the first's one-line message
      running into the second's status line, keeps the second frame's clock. */
  lemma TwoFramesScan(status1: string, message1: string, t1: int, status2: string, message2: string, t2: int,
                      prefix: string)
    requires IsInt32(t1) && IsInt32(t2)
    requires prefix == "Lamport-Clock" || prefix == "Lamport-Clock:"
    requires NoLineBreak(status1) && NoLineBreak(status2)
    requires message1 != [] && NoLineBreak(message1) && message1[0] != 'L'
    requires message2 != [] && NoLineBreak(message2) && message2[0] != 'L'
    ensures ScanClock(ReadLines(Response(status1, message1, t1) + Response(status2, message2, t2)), prefix, -1) == Some(t2)
  {
    TwoFramesLines(status1, message1, t1, status2, message2, t2);
    TwoFramesClock("HTTP/1.1 " + status1, t1, |message1|, message1 + "HTTP/1.1 " + status2, t2, |message2|,
      message2, prefix);
  }

  /** The content server reads the two frames of a completed PUT and keeps
      the confirmation's clock, the last one. */
  lemma PutReplyScan(t1: int, t2: int)
    requires IsInt32(t1) && IsInt32(t2)
    ensures ScanClock(ReadLines(Response("200 OK", Aggregation.PutAck, t1) + Response("201 Created", Aggregation.PutDone, t2)),
      ContentServer.ResponseClockPrefix, -1) == Some(t2)
  {
    FrameTextsPlain();
    TwoFramesScan("200 OK", Aggregation.PutAck, t1, "201 Created", Aggregation.PutDone, t2, ContentServer.ResponseClockPrefix);
  }

  /** The frames the PUT handler writes once the request line, the headers
      and the body are known to be in order. */
  lemma PutFramesWith(serverClock: int, store: Aggregation.Store, lines: seq<string>, body: Aggregation.Store,
                      encode: Aggregation.Store -> string, lengthHeader: string, clock: int, length: nat)
    requires lines != [] && Aggregation.RouteOf(Some(lines[0])) == Aggregation.PutRoute
    requires Aggregation.ScanHeaders(lines[1..], "", -1) == Aggregation.Headers(lengthHeader, clock) && clock != -1
    requires Aggregation.ContentLength(lengthHeader) == Some(length)
    ensures Aggregation.Serve(serverClock, store, Aggregation.Request(Some(lines[0]), lines[1..], Some(body)), encode).frames ==
      [Response("200 OK", Aggregation.PutAck, serverClock + 1),
       Response("201 Created", Aggregation.PutDone, serverClock + 1 + clock + 1 + 1)]
  {
    var request := Aggregation.Request(Some(lines[0]), lines[1..], Some(body));
    var t2 := serverClock + 1 + clock + 1 + 1;
    var served := Aggregation.ServePut(serverClock, store, lines[1..], Some(body));
    assert Aggregation.Serve(serverClock, store, request, encode) == served;
    assert served.clock == t2;
    assert served.frames == [Response("200 OK", Aggregation.PutAck, serverClock + 1)] +
      [Response("201 Created", Aggregation.PutDone, served.clock)];
  }

  /** The clock, the store and the outcome the PUT handler leaves once the
      request line, the headers and the body are known to be in order. */
  lemma PutStateWith(serverClock: int, store: Aggregation.Store, lines: seq<string>, body: Aggregation.Store,
                     encode: Aggregation.Store -> string, lengthHeader: string, clock: int, length: nat)
    requires lines != [] && Aggregation.RouteOf(Some(lines[0])) == Aggregation.PutRoute
    requires Aggregation.ScanHeaders(lines[1..], "", -1) == Aggregation.Headers(lengthHeader, clock) && clock != -1
    requires Aggregation.ContentLength(lengthHeader) == Some(length)
    ensures var served := Aggregation.Serve(serverClock, store, Aggregation.Request(Some(lines[0]), lines[1..], Some(body)), encode);
      served.clock == serverClock + 1 + clock + 1 + 1 && served.store == Aggregation.Merge(store, body) &&
      served.outcome == Completed
  {
  }

  /** The server's side of a push: it reads the request, reconciles with the
      sent clock, merges the body and writes the acknowledgement and the
      confirmation. The receive lands after the send: from a non-negative
      server clock, the final clock exceeds the clock the request carried. */
  lemma PutServed(clock: int, json: string, serverClock: int, store: Aggregation.Store,
                  body: Aggregation.Store, encode: Aggregation.Store -> string)
    requires IsInt32(clock) && clock != -1 && |json| <= IntMax
    ensures var lines := ReadLines(ContentServer.PutRequest(json, clock));
      var served := Aggregation.Serve(serverClock, store, Aggregation.Request(Some(lines[0]), lines[1..], Some(body)), encode);
      served.clock == serverClock + 1 + clock + 1 + 1 && served.store == Aggregation.Merge(store, body) &&
      served.outcome == Completed &&
      served.frames == [Response("200 OK", Aggregation.PutAck, serverClock + 1),
                        Response("201 Created", Aggregation.PutDone, served.clock)] &&
      (serverClock >= 0 ==> served.clock > clock)
  {
    var lines := ReadLines(ContentServer.PutRequest(json, clock));
    var lengthHeader := "Content-Length: " + IntToString(|json|);
    PutRequestRead(json, clock);
    PutFramesWith(serverClock, store, lines, body, encode, lengthHeader, clock, |json|);
    PutStateWith(serverClock, store, lines, body, encode, lengthHeader, clock, |json|);
  }

  /** The content server's side of a push: it reads the two frames and adds
      the confirmation's clock to its own, so from a non-negative clock it
      ends after the confirmation. */
  lemma PutPushed(senderClock: int, json: string, t1: int, t2: int)
    requires IsInt32(t1) && IsInt32(t2) && t2 != -1
    ensures var pushed := ContentServer.Push(senderClock, json,
        ReadLines(Response("200 OK", Aggregation.PutAck, t1) + Response("201 Created", Aggregation.PutDone, t2)));
      pushed.request == ContentServer.PutRequest(json, senderClock + 1) && pushed.outcome == Completed &&
      pushed.clock == senderClock + 1 + t2 + 1 && (senderClock >= 0 ==> pushed.clock > t2)
  {
    PutReplyScan(t1, t2);
  }
}
