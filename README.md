# Lamport-clocked weather aggregation, modelled in Dafny

The system has three programs that share one logical clock class:

- **Aggregation server.** It accepts one connection at a time and routes the request line by substring: "GET" wins over "PUT", and anything else gets a 400.
  - A GET ticks the clock and replies with the JSON encoding of its in-memory store.
  - A PUT ticks and acknowledges with "200 OK" straight away. It then reads the headers, reconciles its clock with the sender's `Lamport-Clock` value, merges the decoded body into the store, ticks again and confirms with "201 Created".
- **GET client.** It parses a server address from its argument, ticks, sends a GET carrying its clock and reads the whole response. It keeps the value of the last `Lamport-Clock` line and updates its clock by that value.
- **Content server.** It reads `key:value` lines from its data file into an insertion-ordered map. It ticks, sends the map's JSON in a PUT carrying its clock, and updates by the last clock line of the reply.

The clock is one integer:

- `tick` adds one.
- `update(r)` sets the counter to `clock + r + 1`. This is not Lamport's `max(clock, r) + 1`.

The model keeps that arithmetic. It proves which ordering facts survive it: a receive of a real counter lands after both clocks, and admissible histories never go back.

The model is in seven modules:

- `JavaText` (java_text.dfy) writes out the Java library behaviour the programs rely on, so that its edge cases are part of the model:
  - `trim`;
  - `startsWith` and `contains`;
  - `split`, which drops trailing empty strings;
  - `Integer.parseInt`, with `None` standing for `NumberFormatException`;
  - decimal printing of an `int`;
  - `BufferedReader.readLine`, whose line ends are "\n", "\r" or "\r\n".
- `Lamport` (lamport_clock.dfy) holds the clock, as a class and as the functions `Step` and `Run` over events.
- `Wire` (wire.dfy) holds:
  - the response frame of `sendResponse`;
  - the parsing of the `Lamport-Clock` and `Content-Length` header lines;
  - the loop both clients run over the response lines to find the last clock.
- `Aggregation` (aggregation_server.dfy) holds routing, the PUT header loop, the store merge and one request as a function `Serve`. It also has the server as a class whose methods are proved to compute `Serve`.
- `GetClient` (get_client.dfy) holds `parseServerAddress` and one fetch, as a function `Fetch` and as a method on the client's clock.
- `ContentServer` (content_server.dfy) holds `readDataFile` over a `LinkedHashMap` model and one push, as a function `Push` and as a method on the content server's clock.
- `Exchange` (exchange.dfy) connects the programs through the text on the wire. It covers:
  - what the server reads from each client's request;
  - what the clients read back from the server's frames;
  - what the clocks and the store are afterwards.

Java's uncaught exceptions are results, not aborts:
- a PUT whose headers end before the blank line, or carry an unreadable clock;
- an unreadable `Content-Length`;
- a negative length;
- a body Gson decodes to `null`;
- an unreadable clock line in a client's response.

Each of these ends the handling with `Crashed(reason)`, and the state reached so far (clock, store, frames written) is kept.

Two behaviours of the code are modelled as written, and the lemmas make them visible:

- The acknowledgement's message "PUT jsonResponse" has no line terminator. A client reading the PUT reply line by line therefore sees it run into the confirmation's status line, as in "PUT jsonResponseHTTP/1.1 201 Created" (`Exchange.TwoFramesLines`).
- The content server matches the prefix "Lamport-Clock" without the colon, unlike the GET client and the server. It also skips the update when it found no clock, whereas the GET client always calls `update`, with -1 when nothing was found (`Lamport.UpdateMinusOneIsIdentity`).

The aggregation server ignores the clock in a GET request: only a PUT reconciles with the sender's clock.

Where the tests and the code disagree, the model follows the code:

- `src/LamportClockTest.java:26-29` expects a fresh clock to read 1, but the constructor sets 0.
- `src/AggregationServerTest.java:75` expects the first line of a PUT reply to be "HTTP/1.1 201 Created". The code first writes "HTTP/1.1 200 OK".

## Model

| member | source | states |
|---|---|---|
| Lamport.LamportClock.constructor | src/LamportClock.java:14-16 | a new clock reads 0 |
| Lamport.LamportClock.Tick | src/LamportClock.java:19-21 | the counter becomes the old counter plus one and nothing else changes |
| Lamport.LamportClock.Update | src/LamportClock.java:24-26 | the counter becomes the old counter plus the received value plus one |
| Lamport.LamportClock.GetTime | src/LamportClock.java:29-31 | returns the counter and changes nothing |
| Lamport.Step | src/LamportClock.java:19-26 | defines one clock step: `tick` adds one, `update(r)` adds r and one; its properties are stated by `TickIncrements`, `UpdateDominates` and `UpdateMinusOneIsIdentity` |
| Lamport.Run | src/LamportClock.java:19-26 | defines the clock after a history of ticks and updates, step by step; its properties are stated by `RunAppend`, `RunNeverDecreases`, `Monotone` and `RunStaysNatural` |
| Lamport.TickIncrements | src/LamportClock.java:19-21 | a tick raises the counter by exactly one, so strictly |
| Lamport.UpdateExample | src/LamportClockTest.java:32-37 | from a fresh clock, a tick then `update(5)` reads 7 |
| Lamport.UpdateDominates | src/LamportClock.java:24-26 | with a non-negative clock and received value, an update lands strictly after both, hence at least at max + 1 |
| Lamport.UpdateMinusOneIsIdentity | src/LamportClock.java:24-26 | `update(-1)`, the "nothing received" marker, leaves the counter unchanged |
| Lamport.RunAppend | src/LamportClock.java:19-26 | running two event sequences one after the other is running their concatenation |
| Lamport.RunNeverDecreases | src/LamportClock.java:19-26 | events whose received values are at least -1 never move the counter back |
| Lamport.Monotone | src/LamportClock.java:19-26 | along an admissible history the counter is non-decreasing from a prefix to any longer prefix, and each tick adds exactly one |
| Lamport.RunStaysNatural | src/LamportClock.java:14-26 | a clock that starts non-negative stays non-negative under admissible events |
| JavaText.StartsWith | src/AggregationServer.java:112-114 | defines `String.startsWith`: the prefix is the text's first characters; used by every header test |
| JavaText.Contains | src/AggregationServer.java:75-77 | defines `String.contains` by recursion; `ContainsAt` states it holds exactly when some index starts an occurrence |
| JavaText.ContainsAt | src/AggregationServer.java:75-77 | `contains` holds exactly when some index starts an occurrence |
| JavaText.LacksNotContains | src/AggregationServer.java:75-77 | a text lacking the first character of `t` does not contain `t` |
| JavaText.Trim | src/GETClient.java:117 | defines `String.trim` as dropping leading then trailing characters at most U+0020; `TrimLeading`, `TrimTrailing` and `TrimUnchanged` state what it removes |
| JavaText.TrimLeading | src/GETClient.java:117 | drops exactly the leading characters at most U+0020, leaving a suffix that starts with a non-blank |
| JavaText.TrimTrailing | src/GETClient.java:117 | drops exactly the trailing characters at most U+0020, leaving a prefix that ends with a non-blank |
| JavaText.TrimUnchanged | src/GETClient.java:117 | a text that neither starts nor ends blank is its own trim |
| JavaText.Split | src/ContentServer.java:100 | defines `split` on a literal separator: the whole text when the separator does not occur, otherwise the pieces without the trailing empty ones; `SplitAllJoin`, `DropTrailingEmpty` and `SplitAllFirst` state its properties |
| JavaText.SplitAll | src/GETClient.java:129 | the untruncated split has at least one piece |
| JavaText.SplitAllJoin | src/GETClient.java:129 | joining the pieces with the separator gives back the text |
| JavaText.SplitAllWhole | src/ContentServer.java:100 | a text without the separator's first character is one piece |
| JavaText.SplitAllFirst | src/ContentServer.java:100 | the first piece ends at the first separator |
| JavaText.DropTrailingEmpty | src/ContentServer.java:100 | the result is a prefix of the pieces, does not end in "", and only "" pieces were dropped |
| JavaText.NatToString | src/AggregationServer.java:153 | the printed digits are non-empty, denote the number and have no leading zero |
| JavaText.ParseInt | src/AggregationServer.java:116 | an accepted number fits in a 32-bit `int` |
| JavaText.ParseIntToString | src/AggregationServer.java:116 | every printed `int` parses back to itself |
| JavaText.IntToString | src/AggregationServer.java:153 | defines how an `int` is printed: a minus sign for negatives, then the digits of its magnitude; `ParseIntToString` states that every printed `int` parses back to itself |
| JavaText.IntToStringChars | src/AggregationServer.java:153 | a printed `int` is digits and a minus sign, ends in a digit and does not start blank |
| JavaText.IntToStringPlain | src/AggregationServer.java:153 | a printed `int` has no colon, space or line break |
| JavaText.LineEnd | src/AggregationServer.java:69 | the first line ends at the first "\n" or "\r", or at the end of the text |
| JavaText.LineEndOf | src/AggregationServer.java:69 | a line without breaks followed by a break ends exactly at its own length |
| JavaText.ReadLines | src/GETClient.java:74 | defines the lines successive `readLine` calls return, each ending at "\n", "\r" or "\r\n"; `ReadLinesCrLf`, `ReadLinesLf` and `ReadLinesLast` state how it reads |
| JavaText.ReadLinesCrLf | src/AggregationServer.java:110 | a line ended by "\r\n" is read whole and reading resumes after the terminator |
| JavaText.ReadLinesLf | src/GETClient.java:74 | a line ended by "\n" is read whole and reading resumes after it |
| JavaText.ReadLinesLast | src/GETClient.java:74 | an unterminated non-empty last line is still returned |
| JavaText.AppendLines | src/GETClient.java:75 | defines the client's accumulated response, each line followed by "\n"; `AppendLinesReadBack` states that it reads back as its lines |
| JavaText.AppendLinesSnoc | src/GETClient.java:75 | appending a line and "\n" extends the accumulated text by exactly that |
| JavaText.AppendLinesReadBack | src/GETClient.java:74-75 | the accumulated response reads back as the lines it was built from |
| Wire.Response | src/AggregationServer.java:151-159 | defines the frame `sendResponse` writes: status line, Lamport-Clock and Content-Length headers, a blank line and the message; `ResponseRoundTrip` and `ResponseBody` state that it reads back as its status, clock and message |
| Wire.ClockHeaderValue | src/AggregationServer.java:116 | defines reading a clock header: the second piece of a split at ": " parsed as an `int`, `None` when there is no second piece or it does not parse; `ClockHeaderOf` states that a written header reads back as its value |
| Wire.ContentLengthValue | src/AggregationServer.java:127 | defines reading a Content-Length header: the second piece of a split at ":", trimmed and parsed; `ContentLengthOf` states that a written header reads back as its length |
| Wire.SplitNameValue | src/AggregationServer.java:116 | name, separator and value split into exactly those two pieces |
| Wire.ClockHeaderOf | src/AggregationServer.java:116 | a header "name: n" reads back as the `int` n |
| Wire.ClockLineValue | src/AggregationServer.java:153 | the clock line a frame carries reads back as that clock |
| Wire.TrimSpacedInt | src/AggregationServer.java:127 | one leading space is trimmed off a printed `int` and nothing else |
| Wire.ContentLengthOf | src/AggregationServer.java:127 | a written Content-Length line reads back as the length written |
| Wire.TwoLines | src/AggregationServer.java:152-155 | two terminated lines read back as themselves, then the rest |
| Wire.HeaderBlockLines | src/AggregationServer.java:152-155 | three terminated header lines and a blank line read back as four lines, then the rest |
| Wire.ResponseShape | src/AggregationServer.java:152-156 | a frame followed by more text is its header lines, a blank line and its message followed by that text |
| Wire.HeaderLinesPlain | src/AggregationServer.java:152-154 | the three header lines of a frame contain no line break |
| Wire.ResponseLines | src/AggregationServer.java:151-159 | a frame followed by more text reads as its four header lines, then the lines of its message and the text |
| Wire.ReadLinesLine | src/AggregationServer.java:152 | a "\r\n"-terminated line reads as itself, then the rest |
| Wire.ResponseRoundTrip | src/AggregationServer.java:151-159 | reading a frame gives its status line and a blank fourth line, its clock header parses to the clock sent, and its length header to the message length |
| Wire.ResponseAlone | src/AggregationServer.java:151-159 | a frame on its own reads as its header block followed by its message's lines |
| Wire.ResponseBody | src/AggregationServer.java:154-156 | the message is exactly the last Content-Length characters of the frame |
| Wire.GluedResponseLines | src/AggregationServer.java:103 | a frame written after text without a terminator joins that text to its status line, and the rest reads as before |
| Wire.ScanClock | src/GETClient.java:74-81 | defines the clients' response loop: each line with the prefix overwrites the clock with its value, and an unreadable one fails; `ScanClockIsLast` states it equals `LastClock` |
| Wire.LastClock | src/GETClient.java:74-81 | the loop's meaning stated without the loop: the value of the last matching line, or the initial value when none matches, and failure when a matching line does not parse; `ScanClockIsLast` connects the two |
| Wire.LastWith | src/GETClient.java:74-81 | the index found starts with the prefix and no later line does; none found means no line does |
| Wire.ScanClockIsLast | src/GETClient.java:74-81 | the response loop yields the value of the last clock line, or the initial -1 when there is none, and fails exactly when some clock line does not parse |
| Wire.LastClockTail | src/GETClient.java:74-81 | the "last clock line" specification unrolled by one line |
| Wire.ClockLinesParseTail | src/GETClient.java:78-79 | all clock lines parse exactly when the first does (if it is one) and all later ones do |
| Wire.ScanClockAppend | src/GETClient.java:74-81 | scanning two runs of lines is scanning the second from the first's result |
| Wire.ClockLineMatches | src/ContentServer.java:72 | a frame's clock line matches both prefixes the clients use |
| Wire.FrameHeaderScan | src/GETClient.java:78-79 | a frame's header block scanned by either client yields the frame's clock |
| Aggregation.RouteOf | src/AggregationServer.java:69-85 | defines `handleClient`'s decision; `EmptyLinesRefused`, `GetWinsOverPut` and `UnknownMethodRefused` state which lines take each route, in both directions |
| Aggregation.EmptyLinesRefused | src/AggregationServer.java:71-85 | a missing or empty request line is refused with "Empty request line" |
| Aggregation.GetLineRouted | src/AggregationServer.java:75-76 | "GET / HTTP/1.1" goes to the GET handler |
| Aggregation.PutRouted | src/AggregationServer.java:75-78 | a line starting with "PUT" and without a 'G' goes to the PUT handler |
| Aggregation.PutLineRouted | src/AggregationServer.java:77-78 | "PUT /data HTTP/1.1" goes to the PUT handler |
| Aggregation.GetWinsOverPut | src/AggregationServer.java:71-78 | a request line reaches the GET handler exactly when it contains "GET", whatever else it contains, "PUT" included |
| Aggregation.MixedLineRouted | src/AggregationServer.java:75-78 | "PUT /GET HTTP/1.1" is handled as a GET |
| Aggregation.UnknownMethodRefused | src/AggregationServer.java:71-81 | a request line is refused with "Invalid request type" exactly when it is non-empty and contains neither "GET" nor "PUT" |
| Aggregation.DeleteRefused | src/AggregationServer.java:79-81 | a DELETE line is refused with "Invalid request type" |
| Aggregation.DeleteLineLacksPut | src/AggregationServer.java:77 | "DELETE /data HTTP/1.1" does not contain "PUT" |
| Aggregation.ScanHeaders | src/AggregationServer.java:108-118 | defines the PUT header loop as recursion over the header lines; `ScanHeadersMeetsSpec` states it equals `HeaderSpec` |
| Aggregation.HeaderSpec | src/AggregationServer.java:108-118 | the header loop's meaning stated without the loop: the last Content-Length line of the header block, the last clock value in it, failure on an unreadable clock or a missing blank line |
| Aggregation.FirstBlank | src/AggregationServer.java:110 | the index found holds the first empty line; none found means no line is empty |
| Aggregation.HeaderNamesDiffer | src/AggregationServer.java:112-114 | a Content-Length line is never taken for a Lamport-Clock line |
| Aggregation.ScanHeadersMeetsSpec | src/AggregationServer.java:108-118 | the header loop keeps the last Content-Length line of the header block and the value of its last clock line, and fails on an unreadable clock or a missing blank line |
| Aggregation.ReadHeaders | src/AggregationServer.java:108-118 | the imperative header loop computes exactly the header scan |
| Aggregation.ContentLength | src/AggregationServer.java:125-128 | defines the body length the PUT handler uses: 0 without a Content-Length header, otherwise the header's value; `ContentLengthOf` states that a written header gives its length |
| Aggregation.Merge | src/AggregationServer.java:162-165 | the merged keys are the union; incoming values win; other keys keep their values |
| Aggregation.MergeIdempotent | src/AggregationServer.java:163 | merging the same body twice equals merging it once |
| Aggregation.MergeDisjointUnion | src/AggregationServer.java:163 | after two bodies with disjoint keys the store holds both |
| Aggregation.AggregationServer.constructor | src/AggregationServer.java:38-41 | the server starts with clock 0 and an empty store |
| Aggregation.AggregationServer.HandleClient | src/AggregationServer.java:61-86 | the new clock, store, frames and outcome are those of `Serve` on the old state |
| Aggregation.AggregationServer.HandleGetRequest | src/AggregationServer.java:88-97 | ticks once and writes one 200 frame with the encoded store |
| Aggregation.AggregationServer.HandlePutRequest | src/AggregationServer.java:99-149 | the new state and frames are those of the PUT handler function on the old state |
| Aggregation.AggregationServer.UpdateLocalData | src/AggregationServer.java:162-165 | the store becomes the merge of the old store and the body |
| Aggregation.Serve | src/AggregationServer.java:61-149 | defines one request's effect on the clock and store and the frames written, by route; `BadRequestsChangeNothing`, `GetTicksOnce`, `PutAcknowledges`, `PutCompletes` and `ServeClockIsRun` state it per route |
| Aggregation.ServeGet | src/AggregationServer.java:88-97 | defines the GET handler's effect; `GetTicksOnce` states it |
| Aggregation.ServePut | src/AggregationServer.java:99-149 | defines the PUT handler's effect, with each exception as a `Crashed` outcome; `PutAcknowledges`, `PutCompletes`, `PutClock` and `PutConfirmationIsLater` state it |
| Aggregation.BadRequestsChangeNothing | src/AggregationServer.java:71-85 | every refused request, whatever its headers and body, is answered with one 400 frame carrying the routing message and clock -1, and changes neither clock nor store |
| Aggregation.GetTicksOnce | src/AggregationServer.java:88-97 | a GET raises the clock by one, keeps the store, and replies 200 with the encoded store and the new clock |
| Aggregation.PutAcknowledges | src/AggregationServer.java:99-103 | a PUT's first frame is "200 OK" with the ticked clock; a failed PUT writes only that frame and keeps the store |
| Aggregation.PutCompletes | src/AggregationServer.java:120-148 | a completed PUT had readable headers and a body, merged it, wrote exactly two frames with the 201 frame carrying the final clock, and that clock is tick, reconcile, tick |
| Aggregation.PutCompletedFrames | src/AggregationServer.java:143-148 | a completed PUT handler stores the merge and writes the acknowledgement then the confirmation |
| Aggregation.PutClock | src/AggregationServer.java:100-147 | a PUT's clock is one tick, plus the received value and one when a clock was received, plus one more tick when it completes |
| Aggregation.PutConfirmationIsLater | src/AggregationServer.java:120-148 | when the header block carries no clock or a clock of at least -1, the confirmation's clock exceeds the acknowledgement's; with a non-negative received clock and a non-negative local clock it also exceeds the received clock |
| Aggregation.ServeClockIsRun | src/AggregationServer.java:61-149 | the server's clock after any request is its clock run through the events the request causes, so it never goes back under admissible received values |
| Aggregation.PutClockIsRun | src/AggregationServer.java:99-149 | the same for the PUT handler |
| Aggregation.PutThenGet | src/AggregationServer.java:88-149 | a GET after a completed PUT serves the merged store with a later clock |
| ContentServer.Put | src/ContentServer.java:102 | `LinkedHashMap.put` keeps the map valid, sets the value, keeps an existing key's position and appends a new key |
| ContentServer.Build | src/ContentServer.java:94-107 | putting the entries one by one yields a valid insertion-ordered map |
| ContentServer.EntriesOf | src/ContentServer.java:99-100 | one possible entry per line, in order |
| ContentServer.ReadDataFile | src/ContentServer.java:94-107 | the loop builds exactly the map of the file's lines |
| ContentServer.EntryOf | src/ContentServer.java:100-102 | defines what one data-file line contributes: exactly two pieces give the first as the key and the trimmed second as the value; `EntryTrimsValueOnly`, `NoColonSkipped`, `MissingValueSkipped`, `ExtraColonSkipped` and `TrailingColonAccepted` state which lines are kept |
| ContentServer.ParseData | src/ContentServer.java:94-107 | defines the map `readDataFile` builds; `ParseDataKeys`, `ParseDataValue` and `ParseDataOrder` state its keys, values and order |
| ContentServer.EntryTrimsValueOnly | src/ContentServer.java:100-102 | "k:v" gives key k unchanged and v trimmed |
| ContentServer.NoColonSkipped | src/ContentServer.java:100-101 | a line without a colon is skipped |
| ContentServer.MissingValueSkipped | src/ContentServer.java:100-101 | "k:" is skipped, since split drops the empty value |
| ContentServer.ExtraColonSkipped | src/ContentServer.java:100-101 | "k:v:x" is skipped |
| ContentServer.TrailingColonAccepted | src/ContentServer.java:100-102 | "k:v:" is accepted as (k, trimmed v) |
| ContentServer.PlainEntry | src/ContentServer.java:100-102 | a line "k:v" with a plain value is the entry (k, v) |
| ContentServer.TwoEntryLines | src/ContentServer.java:94-107 | two entry lines with distinct keys give those keys in file order |
| ContentServer.TwoLinesExample | src/ContentServerTest.java:18-36 | the test's two lines give {key1: value1, key2: value2} in that order |
| ContentServer.TwoEntries | src/ContentServer.java:99-104 | two entries with distinct keys build the map with both in order |
| ContentServer.BuildKeys | src/ContentServer.java:99-104 | a key is in the built map exactly when some entry is for it |
| ContentServer.BuildValue | src/ContentServer.java:99-104 | a key's value is that of its last entry |
| ContentServer.BuildOrder | src/ContentServer.java:99-104 | keys stand in the order of their first entries |
| ContentServer.ParseDataKeys | src/ContentServer.java:94-107 | `readDataFile` keeps a key exactly when some line is an entry for it |
| ContentServer.ParseDataValue | src/ContentServer.java:94-107 | a repeated key has the trimmed value of its last line |
| ContentServer.ParseDataOrder | src/ContentServer.java:94-107 | keys are listed in the order of their first lines |
| ContentServer.PutRequest | src/ContentServer.java:55-61 | defines the PUT request text; `Exchange.PutRequestRead` and `Exchange.PutRequestBody` state how the server reads it back |
| ContentServer.Push | src/ContentServer.java:50-80 | defines one push: tick, send, scan the response for the last clock, and update only when one was found; `PushClock` states its clock |
| ContentServer.ReadServerResponse | src/ContentServer.java:68-75 | the response loop computes the scan with prefix "Lamport-Clock" |
| ContentServer.PushData | src/ContentServer.java:50-80 | the new clock, the request and the outcome are those of `Push` on the old clock |
| ContentServer.PushClock | src/ContentServer.java:50-80 | a push sends the ticked clock, and the clock becomes tick plus the last clock line's value plus one, or just the tick when there is none or it reads -1 |
| GetClient.ParseServerAddress | src/GETClient.java:112-151 | an accepted address has a port that parses again; a refusal carries one of the two messages |
| GetClient.Target | src/GETClient.java:27-38 | without an argument the client uses localhost:4567, otherwise the parse of its first argument |
| GetClient.StripScheme | src/GETClient.java:119-124 | defines dropping one "http://" or, failing that, "https://"; `SchemeDropped` and `NoScheme` state when it removes a prefix |
| GetClient.NoScheme | src/GETClient.java:120-124 | a text without a slash has no scheme to drop |
| GetClient.HostPortSplits | src/GETClient.java:127-131 | "host:port" is already trimmed, contains a colon and splits into the host and the port |
| GetClient.HostPortAccepted | src/GETClient.java:112-151 | "host:port" is read back as that host and port |
| GetClient.SameOnceStripped | src/GETClient.java:116-124 | two inputs that agree once trimmed and stripped parse the same |
| GetClient.SchemeDropped | src/GETClient.java:119-124 | "http://host:port" and "https://host:port" parse as "host:port" |
| GetClient.SchemeStripped | src/GETClient.java:119-124 | trimming and stripping a scheme in front of a text leaves the text |
| GetClient.BareHostDefaultPort | src/GETClient.java:145-148 | a bare host is served on port 4567 |
| GetClient.EmptyHostDefaults | src/GETClient.java:133-135 | ":port" keeps the default host "localhost" |
| GetClient.MissingPortRefused | src/GETClient.java:129-143 | "host:" is refused as a malformed address |
| GetClient.ExtraColonRefused | src/GETClient.java:129-144 | "host:port:extra" with a non-empty third piece is refused as a malformed address |
| GetClient.TrailingColonPortAccepted | src/GETClient.java:112-137 | "host:port:" is accepted as host and port, because the trailing empty piece is dropped |
| GetClient.TrailingColonUnstripped | src/GETClient.java:116-124 | "host:port:" is unchanged by trimming and scheme stripping |
| GetClient.TrailingColonPieces | src/GETClient.java:127-131 | "host:port:" contains a colon and splits into exactly host and port |
| GetClient.TooManyPieces | src/GETClient.java:142-144 | a colon-bearing text that does not split into two pieces is refused as a malformed address |
| GetClient.BadPortRefused | src/GETClient.java:136-141 | a port that is not a decimal `int` is refused with the port message |
| GetClient.GetRequest | src/GETClient.java:58-63 | defines the GET request text carrying the clock; `Exchange.GetRequestRead` states how the server reads it back |
| GetClient.Fetch | src/GETClient.java:53-88 | defines one fetch: tick, send, scan the response for the last clock, and update by it; `FetchSendsTickedClock` and `FetchClock` state its request and clock |
| GetClient.ReadResponse | src/GETClient.java:69-81 | the loop accumulates every line with "\n" and keeps the last clock value, failing on an unreadable one |
| GetClient.FetchData | src/GETClient.java:53-88 | the new clock, the request, the accumulated text and the outcome are those of `Fetch` on the old clock |
| GetClient.FetchSendsTickedClock | src/GETClient.java:53-63 | the request carries the clock after exactly one tick |
| GetClient.FetchClock | src/GETClient.java:69-88 | after a fetch the clock is tick plus the last clock line's value plus one (just the tick without one), and the accumulated text reads back as the response lines |
| Exchange.GetRequestRead | src/GETClient.java:58-63 | the server reads the GET request as the GET line, three headers and a blank line, and routes it to GET |
| Exchange.PutRequestLines | src/ContentServer.java:55-61 | the server reads the PUT request as its six header lines, a blank line and the JSON's lines |
| Exchange.ScanSkips | src/AggregationServer.java:110-117 | the header loop skips a line that is neither a Content-Length nor a clock line |
| Exchange.IgnoredHeaders | src/ContentServer.java:56-60 | Host, Content-Type and Connection are neither a Content-Length nor a clock header |
| Exchange.PutHeadersOf | src/AggregationServer.java:108-118 | the PUT request's header lines scan to its Content-Length line and its clock |
| Exchange.PutHeadersScan | src/AggregationServer.java:108-118 | the server's header loop finds the content server's Content-Length line and clock |
| Exchange.PutRequestBody | src/AggregationServer.java:131-133 | the last Content-Length characters of the PUT request are exactly the JSON text |
| Exchange.PutRequestRead | src/ContentServer.java:55-61 | the server routes the PUT request to PUT, finds its clock, and reads a Content-Length equal to the JSON's length |
| Exchange.FrameRead | src/AggregationServer.java:151-159 | a frame with a one-line message reads as its four header lines and the message |
| Exchange.FrameClock | src/GETClient.java:74-81 | scanning a frame's lines yields its clock |
| Exchange.GetServed | src/AggregationServer.java:88-97 | the server answers the GET client's request with one tick and one 200 frame of its encoded store |
| Exchange.FetchWith | src/GETClient.java:69-88 | a fetch whose reply carries clock t ends at clock + 1 + t + 1 |
| Exchange.OneFrameScan | src/GETClient.java:74-81 | either client reading one frame sees its lines and keeps its clock |
| Exchange.GetFetched | src/GETClient.java:69-88 | the GET client reading one 200 frame adds the frame's clock to its own |
| Exchange.GetExchange | src/GETClient.java:53-88 | across a GET, the client sends its ticked clock, the server ticks and sends its store, and the client ends strictly after the server's reply and its own send |
| Exchange.TwoFramesLines | src/AggregationServer.java:103-148 | the PUT reply reads with the acknowledgement's message glued to the confirmation's status line |
| Exchange.TwoFramesScan | src/ContentServer.java:68-75 | scanning two frames yields the second frame's clock |
| Exchange.PutReplyScan | src/ContentServer.java:68-75 | the content server scanning the PUT reply keeps the confirmation's clock |
| Exchange.PutFramesWith | src/AggregationServer.java:99-149 | a PUT with readable headers writes the acknowledgement and the confirmation |
| Exchange.PutStateWith | src/AggregationServer.java:120-148 | a PUT with readable headers reconciles the clock, merges the body and completes |
| Exchange.PutServed | src/AggregationServer.java:99-149 | the server handling the content server's request reconciles with the sent clock, merges the body, writes both frames and, from a non-negative clock, ends after the sent clock |
| Exchange.PutPushed | src/ContentServer.java:50-80 | the content server reading the PUT reply adds the confirmation's clock to its own and ends after it |

## Left out

- Sockets, threads and the server's accept loop are left out. The server ignores its arguments and always listens on the fixed port 4567 (src/AggregationServer.java:37 and 45). Each request and each client run is modelled as one step over given lines, and concurrent clients are not modelled.
- Aggregation.AggregationServer.HandleClient: a `Crashed` outcome ends the Java server process, because `main` catches only `IOException` around `handleClient` and around the loop (src/AggregationServer.java:50-53 and 55). The model's server object can still be given later requests after a crash, and those calls have no counterpart in the Java program.
- Gson is not modelled. The store's JSON encoding is a parameter (`encode`), a PUT body arrives already decoded (`None` when Gson gave `null`), and the content server's `convertToJSON` output is a parameter.
- Content-Length governs how many characters the server reads for the body. The model takes the decoded body as given and does not cut the stream at that length. `Exchange.PutRequestBody` shows that the last Content-Length characters of the content server's request are the JSON text.
- The GET client's steps after the clock update are not modelled: cutting the JSON out from the first '{', decoding it and printing each field. The exception `substring` throws when the reply has no '{' is one of them. `Completed` for a fetch means the clock update was reached.
- The content server's extraction of the port from its URL argument (`url.getPort()`, which is -1 without a port) and the fixed file name "data.txt" are not modelled. The file's lines are given.
- Lamport.LamportClock.Tick: Java's 32-bit `int` wrap-around of the counter is not modelled; the counter is unbounded.
- Lamport.LamportClock.Update: as for `Tick`, the sum is unbounded rather than wrapped to 32 bits. Lemmas that read a clock back from text require it to fit in an `int`.
- `ParseInt` covers ASCII digits only; Java also accepts other Unicode decimal digits.
- Java's `split` takes a regular expression; the separators used (":" and ": ") contain no special characters, so a literal split is modelled.
- The header comment's 30-second eviction, 204 for empty content and 500 for bad JSON are not in the code, so they are not modelled. `convertListToJsonObject` is unused and also left out.
- Aggregation.PutConfirmationIsLater: a received clock below -1 is also passed to `update` (src/AggregationServer.java:121-122). The confirmation's clock can then be below the acknowledgement's, so the lemma states the order only for received values of at least -1.
- Exchange.PutServed and Exchange.PutPushed: the full PUT exchange is stated as these two halves instead of one lemma running both programs. The reply the content server reads is given by the two frames the server writes, with the clocks `PutServed` proves.
- Exchange.GetExchange: the server's encoded store is required to be one non-empty line starting with '{', which is what Gson's compact output of a string map looks like.
- ContentServer.PutRequest and Wire.Response: Java's `length()` counts UTF-16 code units, and the model counts Unicode scalar values. The two differ for characters outside the Basic Multilingual Plane. This affects the Content-Length written by the content server and by the server's `sendResponse` (src/AggregationServer.java:154).
