/** The aggregation server's handling of one connection (AggregationServer.java):
    the request line is routed by substring, a GET replies with the encoded
    store, and a PUT acknowledges, reads its headers, reconciles the clock with
    the sender's, merges the decoded body into the store and confirms.

    The connection is given as already-split lines: the request line (`None`
    when the stream ended at once), the header lines that follow it, and the
    body as Gson decoded it (`None` when Gson gave `null` or failed). Gson's
    encoding of the store for a GET reply is a parameter. */
module Aggregation {
  import opened JavaText
  import opened Wire
  import opened Lamport

  type Store = map<string, string>

  datatype Request = Request(requestLine: Option<string>, headerLines: seq<string>, payload: Option<Store>)

  /** The server's clock and store after a request, with the frames written
      and how the handling ended. */
  datatype Served = Served(clock: int, store: Store, frames: seq<string>, outcome: Outcome)

  // ---------------------------------------------------------------------------
  // Routing

  datatype Route = GetRoute | PutRoute | BadRequest(message: string)

  /** `handleClient`'s decision: an absent or empty line is refused, then
      "GET" anywhere in the line wins over "PUT" anywhere in the line. */
  function RouteOf(requestLine: Option<string>): Route {
    if requestLine.None? || requestLine.value == "" then BadRequest("Empty request line")
    else if Contains(requestLine.value, "GET") then GetRoute
    else if Contains(requestLine.value, "PUT") then PutRoute
    else BadRequest("Invalid request type")
  }

  /** An absent or empty request line is refused. */
  lemma EmptyLinesRefused()
    ensures RouteOf(None) == BadRequest("Empty request line")
    ensures RouteOf(Some("")) == BadRequest("Empty request line")
  {
  }

  /** The GET client's request line reaches the GET handler. */
  lemma GetLineRouted()
    ensures RouteOf(Some("GET / HTTP/1.1")) == GetRoute
  {
    assert StartsWith("GET / HTTP/1.1", "GET");
  }

  /** A line that starts with "PUT" and has no 'G' goes to the PUT handler. */
  lemma PutRouted(line: string)
    requires StartsWith(line, "PUT") && Lacks(line, 'G')
    ensures RouteOf(Some(line)) == PutRoute
  {
    LacksNotContains(line, "GET");
  }

  /** The content server's request line reaches the PUT handler. */
  lemma PutLineRouted()
    ensures RouteOf(Some("PUT /data HTTP/1.1")) == PutRoute
  {
    PutRouted("PUT /data HTTP/1.1");
  }

  /** Exactly the lines containing "GET" reach the GET handler, whatever
      else they contain, "PUT" included, because GET is tested first. */
  lemma GetWinsOverPut(line: string)
    ensures RouteOf(Some(line)) == GetRoute <==> Contains(line, "GET")
  {
    ContainsAt(line, "GET");
  }

  /** A line mentioning both methods, with "PUT" first, is handled as a GET. */
  lemma MixedLineRouted()
    ensures RouteOf(Some("PUT /GET HTTP/1.1")) == GetRoute
  {
    var s := "PUT /GET HTTP/1.1";
    assert s[5..8] == "GET";
    assert OccursAt(s, "GET", 5);
    ContainsAt(s, "GET");
  }

  /** Exactly the non-empty lines that mention neither method are refused
      with "Invalid request type". */
  lemma UnknownMethodRefused(line: string)
    ensures RouteOf(Some(line)) == BadRequest("Invalid request type") <==>
      line != "" && !Contains(line, "GET") && !Contains(line, "PUT")
  {
  }

  /** A DELETE line is refused as an unknown method. */
  lemma DeleteRefused()
    ensures RouteOf(Some("DELETE /data HTTP/1.1")) == BadRequest("Invalid request type")
  {
    LacksNotContains("DELETE /data HTTP/1.1", "GET");
    DeleteLineLacksPut();
  }

  lemma DeleteLineLacksPut()
    ensures !Contains("DELETE /data HTTP/1.1", "PUT")
  {
    var s := "DELETE /data HTTP/1.1";
    ContainsAt(s, "PUT");
    forall i | 0 <= i <= |s| - 3
      ensures !OccursAt(s, "PUT", i)
    {
      assert s[i..i + 3][0] == s[i];
      if s[i] == 'P' {
        assert i == 16;
        assert s[i..i + 3][1] == '/';
      }
    }
  }

  // ---------------------------------------------------------------------------
  // The PUT header loop

  datatype HeaderScan = Headers(contentLengthHeader: string, receivedClock: int) | HeaderFailure(reason: string)

  const EndOfStream := "stream ended before the blank line"
  const BadClockHeader := "malformed Lamport-Clock header"

  /** The header loop of `handlePutRequest`, from the given values of
      `contentLengthHeader` and `receivedClock`: it stops at the first empty
      line, remembers the latest Content-Length line and the value of the latest
      Lamport-Clock line. Running out of lines (`readLine` gives `null`) and an
      unreadable clock value both throw. */
  function ScanHeaders(lines: seq<string>, contentLengthHeader: string, receivedClock: int): HeaderScan
    decreases |lines|
  {
    if lines == [] then HeaderFailure(EndOfStream)
    else if lines[0] == "" then Headers(contentLengthHeader, receivedClock)
    else if StartsWith(lines[0], "Content-Length:") then ScanHeaders(lines[1..], lines[0], receivedClock)
    else if StartsWith(lines[0], "Lamport-Clock:") then
      match ClockHeaderValue(lines[0])
      case None => HeaderFailure(BadClockHeader)
      case Some(v) => ScanHeaders(lines[1..], contentLengthHeader, v)
    else ScanHeaders(lines[1..], contentLengthHeader, receivedClock)
  }

  /** The index of the first empty line. */
  function FirstBlank(lines: seq<string>): (r: Option<nat>)
    ensures r.Some? ==> r.value < |lines| && lines[r.value] == ""
    ensures r.Some? ==> forall j :: 0 <= j < r.value ==> lines[j] != ""
    ensures r.None? ==> forall j :: 0 <= j < |lines| ==> lines[j] != ""
    decreases |lines|
  {
    if lines == [] then None
    else if lines[0] == "" then Some(0)
    else match FirstBlank(lines[1..])
      case None => None
      case Some(k) => Some(k + 1)
  }

  /** The header block: the lines before the first empty one (all of them when
      there is none). */
  function HeaderBlock(lines: seq<string>): seq<string> {
    match FirstBlank(lines)
    case None => lines
    case Some(k) => lines[..k]
  }

  /** What the header loop is meant to compute, stated without the loop: the
      clock is what the clients' scan finds in the header block, the
      Content-Length line is the last one of the block, and the scan fails when
      a clock value in the block is unreadable or there is no empty line. */
  function HeaderSpec(lines: seq<string>, contentLengthHeader: string, receivedClock: int): HeaderScan {
    var block := HeaderBlock(lines);
    match ScanClock(block, "Lamport-Clock:", receivedClock)
    case None => HeaderFailure(BadClockHeader)
    case Some(rc) =>
      if FirstBlank(lines).None? then HeaderFailure(EndOfStream)
      else match LastWith(block, "Content-Length:")
        case None => Headers(contentLengthHeader, rc)
        case Some(i) => Headers(block[i], rc)
  }

  /** A Content-Length line is never taken for a Lamport-Clock line. */
  lemma HeaderNamesDiffer(line: string)
    requires StartsWith(line, "Content-Length:")
    ensures !StartsWith(line, "Lamport-Clock:")
  {
    assert line[0] == 'C';
  }

  /** The header loop computes exactly `HeaderSpec`. */
  lemma {:induction false} ScanHeadersMeetsSpec(lines: seq<string>, contentLengthHeader: string, receivedClock: int)
    ensures ScanHeaders(lines, contentLengthHeader, receivedClock) == HeaderSpec(lines, contentLengthHeader, receivedClock)
    decreases |lines|
  {
    if lines != [] && lines[0] != "" {
      var tail := lines[1..];
      var block := HeaderBlock(lines);
      assert block == [lines[0]] + HeaderBlock(tail);
      assert block[1..] == HeaderBlock(tail);
      LastWithTail(block, "Content-Length:");
      if StartsWith(lines[0], "Content-Length:") {
        HeaderNamesDiffer(lines[0]);
        ScanHeadersMeetsSpec(tail, lines[0], receivedClock);
      } else if StartsWith(lines[0], "Lamport-Clock:") {
        match ClockHeaderValue(lines[0])
        case None =>
        case Some(v) =>
          ScanHeadersMeetsSpec(tail, contentLengthHeader, v);
      } else {
        ScanHeadersMeetsSpec(tail, contentLengthHeader, receivedClock);
      }
    }
  }

  /** The header loop of `handlePutRequest`, run over the lines after the
      request line. */
  method ReadHeaders(lines: seq<string>) returns (scan: HeaderScan)
    ensures scan == ScanHeaders(lines, "", -1)
  {
    var contentLengthHeader := "";
    var receivedClock := -1;
    var i := 0;
    while i < |lines| && lines[i] != ""
      invariant 0 <= i <= |lines|
      invariant ScanHeaders(lines[i..], contentLengthHeader, receivedClock) == ScanHeaders(lines, "", -1)
    {
      assert lines[i..][1..] == lines[i + 1..];
      if StartsWith(lines[i], "Content-Length:") {
        contentLengthHeader := lines[i];
      } else if StartsWith(lines[i], "Lamport-Clock:") {
        var value := ClockHeaderValue(lines[i]);
        if value.None? {
          return HeaderFailure(BadClockHeader);
        }
        receivedClock := value.value;
      }
      i := i + 1;
    }
    if i == |lines| {
      return HeaderFailure(EndOfStream);
    }
    scan := Headers(contentLengthHeader, receivedClock);
  }

  // ---------------------------------------------------------------------------
  // The store

  /** `localData.putAll(data)`: every incoming key takes its incoming value,
      every other key keeps its value, and no key is removed. */
  function Merge(store: Store, incoming: Store): (merged: Store)
    ensures merged.Keys == store.Keys + incoming.Keys
    ensures forall k :: k in incoming ==> merged[k] == incoming[k]
    ensures forall k :: k in store && k !in incoming ==> merged[k] == store[k]
  {
    store + incoming
  }

  /** Merging the same body twice leaves the store as merging it once. */
  lemma MergeIdempotent(store: Store, incoming: Store)
    ensures Merge(Merge(store, incoming), incoming) == Merge(store, incoming)
  {
  }

  /** After merging two bodies with disjoint keys the store holds both. */
  lemma MergeDisjointUnion(store: Store, a: Store, b: Store)
    requires a.Keys !! b.Keys
    ensures var s := Merge(Merge(store, a), b);
      (forall k :: k in a ==> k in s && s[k] == a[k]) &&
      (forall k :: k in b ==> k in s && s[k] == b[k])
  {
  }

  // ---------------------------------------------------------------------------
  // One request, as a function of the server's state

  const PutAck := "PUT jsonResponse"
  const PutDone := "Data successfully updated"

  function ServeGet(clock: int, store: Store, encode: Store -> string): Served {
    var t := Step(clock, Local);
    Served(t, store, [Response("200 OK", encode(store), t)], Completed)
  }

  /** The Content-Length the PUT handler uses: 0 without the header. */
  function ContentLength(contentLengthHeader: string): Option<int> {
    if contentLengthHeader == "" then Some(0) else ContentLengthValue(contentLengthHeader)
  }

  function ServePut(clock: int, store: Store, headerLines: seq<string>, payload: Option<Store>): Served {
    var t1 := Step(clock, Local);
    var ack := [Response("200 OK", PutAck, t1)];
    match ScanHeaders(headerLines, "", -1)
    case HeaderFailure(why) => Served(t1, store, ack, Crashed(why))
    case Headers(lengthHeader, received) =>
      var t := if received != -1 then Step(t1, Receive(received)) else t1;
      var length := ContentLength(lengthHeader);
      if length.None? then Served(t, store, ack, Crashed("malformed Content-Length header"))
      else if length.value < 0 then Served(t, store, ack, Crashed("negative Content-Length"))
      else if payload.None? then Served(t, store, ack, Crashed("body is not a JSON object"))
      else
        var t2 := Step(t, Local);
        Served(t2, Merge(store, payload.value), ack + [Response("201 Created", PutDone, t2)], Completed)
  }

  function Serve(clock: int, store: Store, request: Request, encode: Store -> string): Served {
    match RouteOf(request.requestLine)
    case GetRoute => ServeGet(clock, store, encode)
    case PutRoute => ServePut(clock, store, request.headerLines, request.payload)
    case BadRequest(message) => Served(clock, store, [Response("400 Bad Request", message, -1)], Completed)
  }

  // ---------------------------------------------------------------------------
  // The server object

  class AggregationServer {
    const clock: LamportClock
    var localData: Store

    constructor ()
      ensures fresh(clock) && clock.clock == 0 && localData == map[]
    {
      clock := new LamportClock();
      localData := map[];
    }

    /** `handleClient`: route the request line and run the handler. */
    method HandleClient(request: Request, encode: Store -> string) returns (frames: seq<string>, outcome: Outcome)
      modifies this, clock
      ensures Served(clock.clock, localData, frames, outcome) ==
        Serve(old(clock.clock), old(localData), request, encode)
    {
      var line := request.requestLine;
      if line.Some? && line.value != "" {
        if Contains(line.value, "GET") {
          frames, outcome := HandleGetRequest(encode);
        } else if Contains(line.value, "PUT") {
          frames, outcome := HandlePutRequest(request.headerLines, request.payload);
        } else {
          frames, outcome := [Response("400 Bad Request", "Invalid request type", -1)], Completed;
        }
      } else {
        frames, outcome := [Response("400 Bad Request", "Empty request line", -1)], Completed;
      }
    }

    method HandleGetRequest(encode: Store -> string) returns (frames: seq<string>, outcome: Outcome)
      modifies clock
      ensures Served(clock.clock, localData, frames, outcome) ==
        ServeGet(old(clock.clock), localData, encode)
    {
      clock.Tick();
      var jsonResponse := encode(localData);
      var time := clock.GetTime();
      frames, outcome := [Response("200 OK", jsonResponse, time)], Completed;
    }

    method HandlePutRequest(headerLines: seq<string>, payload: Option<Store>) returns (frames: seq<string>, outcome: Outcome)
      modifies this, clock
      ensures Served(clock.clock, localData, frames, outcome) ==
        ServePut(old(clock.clock), old(localData), headerLines, payload)
    {
      clock.Tick();
      var time := clock.GetTime();
      frames := [Response("200 OK", PutAck, time)];
      var scan := ReadHeaders(headerLines);
      if scan.HeaderFailure? {
        return frames, Crashed(scan.reason);
      }
      if scan.receivedClock != -1 {
        clock.Update(scan.receivedClock);
      }
      var contentLength := ContentLength(scan.contentLengthHeader);
      if contentLength.None? {
        return frames, Crashed("malformed Content-Length header");
      }
      if contentLength.value < 0 {
        return frames, Crashed("negative Content-Length");
      }
      if payload.None? {
        return frames, Crashed("body is not a JSON object");
      }
      UpdateLocalData(payload.value);
      clock.Tick();
      time := clock.GetTime();
      frames, outcome := frames + [Response("201 Created", PutDone, time)], Completed;
    }

    /** `updateLocalData`: merge the decoded body into the store. */
    method UpdateLocalData(data: Store)
      modifies this
      ensures localData == Merge(old(localData), data)
    {
      localData := localData + data;
    }
  }

  // ---------------------------------------------------------------------------
  // What one request does

  /** Every refused request, whatever its headers and body, is answered with
      one 400 frame carrying the routing message and clock -1, and touches
      neither the clock nor the store. */
  lemma BadRequestsChangeNothing(clock: int, store: Store, request: Request, encode: Store -> string)
    requires RouteOf(request.requestLine).BadRequest?
    ensures Serve(clock, store, request, encode) ==
      Served(clock, store, [Response("400 Bad Request", RouteOf(request.requestLine).message, -1)], Completed)
  {
  }

  /** A GET ticks the clock once, leaves the store alone and replies 200 with
      the encoded store and the ticked clock. */
  lemma GetTicksOnce(clock: int, store: Store, request: Request, encode: Store -> string)
    requires RouteOf(request.requestLine) == GetRoute
    ensures var r := Serve(clock, store, request, encode);
      r.clock == clock + 1 && r.store == store && r.outcome == Completed &&
      r.frames == [Response("200 OK", encode(store), clock + 1)]
  {
  }

  /** A PUT first acknowledges with "200 OK" and the ticked clock; when it
      fails, that acknowledgement is all it writes and the store is
      untouched. */
  lemma PutAcknowledges(clock: int, store: Store, request: Request, encode: Store -> string)
    requires RouteOf(request.requestLine) == PutRoute
    ensures var r := Serve(clock, store, request, encode);
      |r.frames| >= 1 && r.frames[0] == Response("200 OK", PutAck, clock + 1) &&
      (r.outcome.Crashed? ==> r.store == store && |r.frames| == 1)
  {
    var r := Serve(clock, store, request, encode);
    var ack := Response("200 OK", PutAck, clock + 1);
    assert r == ServePut(clock, store, request.headerLines, request.payload);
    match ScanHeaders(request.headerLines, "", -1)
    case HeaderFailure(_) =>
      assert r.frames == [ack];
    case Headers(lengthHeader, received) =>
      var length := ContentLength(lengthHeader);
      if length.None? || length.value < 0 || request.payload.None? {
        assert r.frames == [ack] && r.store == store;
      } else {
        assert r.frames[0] == ack && r.outcome == Completed;
      }
  }

  /** A completed PUT read its headers and a body, merged the body into the
      store and confirmed with "201 Created" carrying its final clock, which is
      one more than the clock after reconciling with the received value. */
  lemma PutCompletes(clock: int, store: Store, request: Request, encode: Store -> string)
    requires RouteOf(request.requestLine) == PutRoute
    requires Serve(clock, store, request, encode).outcome == Completed
    ensures var r := Serve(clock, store, request, encode);
      var scan := ScanHeaders(request.headerLines, "", -1);
      scan.Headers? && request.payload.Some? &&
      r.store == Merge(store, request.payload.value) &&
      |r.frames| == 2 && r.frames[1] == Response("201 Created", PutDone, r.clock) &&
      r.clock == (if scan.receivedClock == -1 then clock + 1 else clock + 1 + scan.receivedClock + 1) + 1
  {
    var r := Serve(clock, store, request, encode);
    assert r == ServePut(clock, store, request.headerLines, request.payload);
    PutClock(clock, store, request.headerLines, request.payload);
    PutCompletedFrames(clock, store, request.headerLines, request.payload);
  }

  /** What a completed PUT writes and stores, on the handler's own inputs. */
  lemma PutCompletedFrames(clock: int, store: Store, headerLines: seq<string>, payload: Option<Store>)
    requires ServePut(clock, store, headerLines, payload).outcome == Completed
    ensures var r := ServePut(clock, store, headerLines, payload);
      ScanHeaders(headerLines, "", -1).Headers? && payload.Some? &&
      r.store == Merge(store, payload.value) &&
      r.frames == [Response("200 OK", PutAck, clock + 1), Response("201 Created", PutDone, r.clock)]
  {
    var r := ServePut(clock, store, headerLines, payload);
    match ScanHeaders(headerLines, "", -1)
    case Headers(_, received) =>
      var t := if received != -1 then Step(clock + 1, Receive(received)) else clock + 1;
      assert r.clock == t + 1;
      assert r.frames == [Response("200 OK", PutAck, clock + 1)] + [Response("201 Created", PutDone, t + 1)];
  }

  /** The confirmation of a completed PUT carries a clock strictly later than
      its acknowledgement whenever the received clock is absent or a real
      counter; with a real counter and a non-negative local clock it is also
      strictly later than the received one. */
  lemma PutConfirmationIsLater(clock: int, store: Store, request: Request, encode: Store -> string)
    requires RouteOf(request.requestLine) == PutRoute
    requires Serve(clock, store, request, encode).outcome == Completed
    ensures var scan := ScanHeaders(request.headerLines, "", -1);
      var r := Serve(clock, store, request, encode);
      (scan.receivedClock >= -1 ==> r.clock > clock + 1) &&
      (scan.receivedClock >= 0 && clock >= 0 ==> r.clock > scan.receivedClock)
  {
    PutCompletes(clock, store, request, encode);
  }

  /** The clock events one request causes. */
  function ServeEvents(clock: int, store: Store, request: Request, encode: Store -> string): seq<Event> {
    match RouteOf(request.requestLine)
    case GetRoute => [Local]
    case BadRequest(_) => []
    case PutRoute =>
      match ScanHeaders(request.headerLines, "", -1)
      case HeaderFailure(_) => [Local]
      case Headers(_, received) =>
        var reconcile := if received != -1 then [Receive(received)] else [];
        if Serve(clock, store, request, encode).outcome == Completed then [Local] + reconcile + [Local]
        else [Local] + reconcile
  }

  /** The server's clock after a request is its clock run through the events
      the request causes; with no received clock below -1 it never goes back. */
  lemma ServeClockIsRun(clock: int, store: Store, request: Request, encode: Store -> string)
    ensures Serve(clock, store, request, encode).clock == Run(clock, ServeEvents(clock, store, request, encode))
    ensures (forall i :: 0 <= i < |ServeEvents(clock, store, request, encode)| ==>
               Admissible(ServeEvents(clock, store, request, encode)[i])) ==>
            Serve(clock, store, request, encode).clock >= clock
  {
    var events := ServeEvents(clock, store, request, encode);
    if RouteOf(request.requestLine) == PutRoute {
      PutClockIsRun(clock, store, request, encode);
    }
    if forall i :: 0 <= i < |events| ==> Admissible(events[i]) {
      RunNeverDecreases(clock, events);
    }
  }

  /** The PUT case of `ServeClockIsRun`. */
  lemma PutClockIsRun(clock: int, store: Store, request: Request, encode: Store -> string)
    requires RouteOf(request.requestLine) == PutRoute
    ensures Serve(clock, store, request, encode).clock == Run(clock, ServeEvents(clock, store, request, encode))
  {
    var r := Serve(clock, store, request, encode);
    assert r == ServePut(clock, store, request.headerLines, request.payload);
    PutClock(clock, store, request.headerLines, request.payload);
    match ScanHeaders(request.headerLines, "", -1)
    case HeaderFailure(_) =>
    case Headers(_, received) =>
      var reconcile := if received != -1 then [Receive(received)] else [];
      RunAppend(clock, [Local], reconcile);
      if r.outcome == Completed {
        RunAppend(clock, [Local] + reconcile, [Local]);
      }
  }

  /** The clock a PUT leaves behind: one tick, the reconciliation with the
      received clock when there is one, and one more tick when it completes. */
  lemma PutClock(clock: int, store: Store, headerLines: seq<string>, payload: Option<Store>)
    ensures var r := ServePut(clock, store, headerLines, payload);
      match ScanHeaders(headerLines, "", -1)
      case HeaderFailure(_) => r.clock == clock + 1 && r.outcome.Crashed?
      case Headers(_, received) =>
        var t := if received != -1 then clock + 1 + received + 1 else clock + 1;
        r.clock == (if r.outcome == Completed then t + 1 else t)
  {
  }

  /** A GET after a completed PUT serves the merged store with a clock later
      than the PUT's confirmation. */
  lemma PutThenGet(clock: int, store: Store, put: Request, get: Request, encode: Store -> string)
    requires RouteOf(put.requestLine) == PutRoute && RouteOf(get.requestLine) == GetRoute
    requires Serve(clock, store, put, encode).outcome == Completed
    ensures var p := Serve(clock, store, put, encode);
      var g := Serve(p.clock, p.store, get, encode);
      put.payload.Some? &&
      g.frames == [Response("200 OK", encode(Merge(store, put.payload.value)), p.clock + 1)] &&
      g.clock > p.clock
  {
    var p := Serve(clock, store, put, encode);
    PutCompletes(clock, store, put, encode);
    GetTicksOnce(p.clock, p.store, get, encode);
  }
}
