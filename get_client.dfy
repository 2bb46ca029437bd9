/** The GET client (GETClient.java): it works out the server's address from
    its first argument, ticks its clock, sends a GET request carrying that
    clock, reads the whole response while remembering the last Lamport-Clock
    value, and reconciles its clock with it.

    The socket is replaced by the response lines `readLine` would return. The
    steps after the clock update (cutting the JSON out of the response from its
    first '{', decoding it with Gson and printing its fields) are not part of
    this model. */
module GetClient {
  import opened JavaText
  import opened Wire
  import opened Lamport

  const DefaultServer := "localhost"
  const DefaultPort := 4567

  /** The pair `parseServerAddress` returns: a host name and the port written
      out in decimal. */
  datatype ServerAddress = ServerAddress(serverName: string, port: string)

  /** An address, or the message of the `IllegalArgumentException`. */
  datatype AddressResult = Address(address: ServerAddress) | AddressError(message: string)

  /** Drops one leading "http://" or, failing that, "https://". */
  function StripScheme(s: string): string {
    if StartsWith(s, "http://") then s[7..]
    else if StartsWith(s, "https://") then s[8..]
    else s
  }

  /** `parseServerAddress`: after trimming and dropping a scheme, a text
      without a colon is a host on the default port, and a text with one is
      split at colons into exactly a host (defaulting when empty) and a
      decimal port. The port returned always parses again. */
  function ParseServerAddress(input: string): (r: AddressResult)
    ensures r.Address? ==> ParseInt(r.address.port).Some?
    ensures r.AddressError? ==>
      r.message == "Invalid server address format." || r.message == "Invalid port number format."
  {
    var s := StripScheme(Trim(input));
    if !Contains(s, ":") then
      ParseIntToString(DefaultPort);
      Address(ServerAddress(s, IntToString(DefaultPort)))
    else
      var parts := Split(s, ":");
      if |parts| != 2 then AddressError("Invalid server address format.")
      else match ParseInt(parts[1])
        case None => AddressError("Invalid port number format.")
        case Some(port) =>
          ParseIntToString(port);
          Address(ServerAddress(if parts[0] == "" then DefaultServer else parts[0], IntToString(port)))
  }

  /** The address `main` connects to: the default one without arguments. */
  function Target(args: seq<string>): (r: AddressResult)
    ensures args == [] ==> r == Address(ServerAddress(DefaultServer, "4567"))
    ensures args != [] ==> r == ParseServerAddress(args[0])
  {
    if args == [] then
      assert IntToString(DefaultPort) == "4567";
      Address(ServerAddress(DefaultServer, IntToString(DefaultPort)))
    else ParseServerAddress(args[0])
  }

  // ---------------------------------------------------------------------------
  // Addresses the parser accepts and refuses

  /** A plain host name: not empty, no colon, no slash, no blank at the start. */
  predicate PlainHost(host: string) {
    host != [] && !IsTrimmed(host[0]) && Lacks(host, ':') && Lacks(host, '/')
  }

  /** A text without a slash has no scheme to drop. */
  lemma NoScheme(s: string)
    requires Lacks(s, '/')
    ensures StripScheme(s) == s
  {
    if |s| >= 7 {
      assert s[..7][5] != '/';
    }
    if |s| >= 8 {
      assert s[..8][6] != '/';
    }
  }

  /** Gluing slash-free texts with a colon gives a slash-free text. */
  lemma ColonJoinLacksSlash(a: string, b: string)
    requires Lacks(a, '/') && Lacks(b, '/')
    ensures Lacks(a + ":" + b, '/')
  {
    var s := a + ":" + b;
    forall i | 0 <= i < |s|
      ensures s[i] != '/'
    {
      if i < |a| { assert s[i] == a[i]; }
      else if i > |a| { assert s[i] == b[i - |a| - 1]; }
    }
  }

  lemma IntLacksSlash(n: int)
    ensures Lacks(IntToString(n), '/')
  {
    IntToStringChars(n);
  }

  /** A host and a port joined by a colon, as `parseServerAddress` sees it
      once trimmed and stripped. */
  lemma HostPortSplits(host: string, port: int)
    requires PlainHost(host)
    ensures var s := host + ":" + IntToString(port);
      Trim(s) == s && Contains(s, ":") && Split(s, ":") == [host, IntToString(port)]
  {
    var digits := IntToString(port);
    var s := host + ":" + digits;
    IntToStringChars(port);
    IntToStringPlain(port);
    assert s[|s| - 1] == digits[|digits| - 1];
    TrimUnchanged(s);
    assert s[|host|..|host| + 1] == ":";
    assert OccursAt(s, ":", |host|);
    ContainsAt(s, ":");
    SplitNameValue(host, ":", digits);
  }

  lemma HostPortUnstripped(host: string, port: int)
    requires PlainHost(host)
    ensures var s := host + ":" + IntToString(port); StripScheme(s) == s
  {
    IntLacksSlash(port);
    ColonJoinLacksSlash(host, IntToString(port));
    NoScheme(host + ":" + IntToString(port));
  }

  /** "host:port" is read back as that host and port. */
  lemma HostPortAccepted(host: string, port: int)
    requires PlainHost(host) && IsInt32(port)
    ensures ParseServerAddress(host + ":" + IntToString(port)) == Address(ServerAddress(host, IntToString(port)))
  {
    HostPortSplits(host, port);
    HostPortUnstripped(host, port);
    ParseIntToString(port);
  }

  /** The parser looks at its input only once trimmed and stripped. */
  lemma SameOnceStripped(a: string, b: string)
    requires StripScheme(Trim(a)) == StripScheme(Trim(b))
    ensures ParseServerAddress(a) == ParseServerAddress(b)
  {
  }

  /** "http://host:port" and "https://host:port" are read as "host:port". */
  lemma SchemeDropped(scheme: string, host: string, port: int)
    requires scheme == "http://" || scheme == "https://"
    requires PlainHost(host) && IsInt32(port)
    ensures ParseServerAddress(scheme + host + ":" + IntToString(port)) == Address(ServerAddress(host, IntToString(port)))
  {
    var digits := IntToString(port);
    var s := host + ":" + digits;
    assert StripScheme(Trim(s)) == s && ParseServerAddress(s) == Address(ServerAddress(host, digits)) by {
      HostPortSplits(host, port);
      HostPortUnstripped(host, port);
      HostPortAccepted(host, port);
    }
    var a := scheme + s;
    assert s != [] && !IsTrimmed(s[|s| - 1]) by {
      IntToStringChars(port);
      assert s[|s| - 1] == digits[|digits| - 1];
    }
    SchemeStripped(scheme, s);
    assert scheme + host + ":" + digits == a by {
      SchemeAssoc(scheme, host, ":", digits);
    }
    SameOnceStripped(a, s);
  }

  /** Trimming and stripping "http://" or "https://" in front of a text whose
      last character is not blank leaves the text. */
  lemma SchemeStripped(scheme: string, s: string)
    requires scheme == "http://" || scheme == "https://"
    requires s != [] && !IsTrimmed(s[|s| - 1])
    ensures StripScheme(Trim(scheme + s)) == s
  {
    var a := scheme + s;
    assert a[|a| - 1] == s[|s| - 1];
    TrimUnchanged(a);
    if scheme == "http://" {
      assert a[..7] == scheme && a[7..] == s;
    } else {
      assert a[..7][4] == 's';
      assert a[..8] == scheme && a[8..] == s;
    }
  }

  lemma SchemeAssoc(p: string, q: string, r: string, t: string)
    ensures p + q + r + t == p + (q + r + t)
  {
  }

  /** A host without a port is served on port 4567. */
  lemma BareHostDefaultPort(host: string)
    requires PlainHost(host) && !IsTrimmed(host[|host| - 1])
    ensures ParseServerAddress(host) == Address(ServerAddress(host, "4567"))
  {
    TrimUnchanged(host);
    NoScheme(host);
    LacksNotContains(host, ":");
    assert IntToString(DefaultPort) == "4567";
  }

  /** ":port" keeps the default host. */
  lemma EmptyHostDefaults(port: nat)
    requires port <= IntMax
    ensures ParseServerAddress(":" + IntToString(port)) == Address(ServerAddress(DefaultServer, IntToString(port)))
  {
    var digits := IntToString(port);
    var s := ":" + digits;
    IntToStringChars(port);
    IntToStringPlain(port);
    assert s[|s| - 1] == digits[|digits| - 1];
    TrimUnchanged(s);
    assert !StartsWith(s, "http://") && !StartsWith(s, "https://");
    assert StartsWith(s, ":");
    assert "" + ":" + digits == s;
    SplitNameValue("", ":", digits);
    ParseIntToString(port);
  }

  /** "host:" has no port piece: Java's split drops the trailing empty
      string, leaving one piece. */
  lemma MissingPortRefused(host: string)
    requires PlainHost(host)
    ensures ParseServerAddress(host + ":") == AddressError("Invalid server address format.")
  {
    var s := host + ":";
    assert !IsTrimmed(s[|s| - 1]);
    TrimUnchanged(s);
    assert Lacks(s, '/');
    NoScheme(s);
    assert OccursAt(s, ":", |host|);
    ContainsAt(s, ":");
    assert s + "" == s;
    SplitAllFirst(host, ":", "");
    assert SplitAll(s, ":") == [host, ""];
  }

  /** "host:port:" is accepted as "host:port": Java's split drops the
      trailing empty piece, leaving exactly two. */
  lemma TrailingColonPortAccepted(host: string, port: int)
    requires PlainHost(host) && IsInt32(port)
    ensures ParseServerAddress(host + ":" + IntToString(port) + ":") == Address(ServerAddress(host, IntToString(port)))
  {
    TrailingColonUnstripped(host, port);
    TrailingColonPieces(host, port);
    ParseIntToString(port);
  }

  lemma TrailingColonUnstripped(host: string, port: int)
    requires PlainHost(host)
    ensures var s := host + ":" + IntToString(port) + ":"; StripScheme(Trim(s)) == s
  {
    var digits := IntToString(port);
    var s := host + ":" + digits + ":";
    assert !IsTrimmed(s[|s| - 1]);
    TrimUnchanged(s);
    IntLacksSlash(port);
    ColonJoinLacksSlash(host, digits);
    assert Lacks(s, '/');
    NoScheme(s);
  }

  lemma TrailingColonPieces(host: string, port: int)
    requires PlainHost(host)
    ensures var s := host + ":" + IntToString(port) + ":"; Contains(s, ":") && Split(s, ":") == [host, IntToString(port)]
  {
    var digits := IntToString(port);
    var s := host + ":" + digits + ":";
    assert OccursAt(s, ":", |host|);
    ContainsAt(s, ":");
    IntToStringPlain(port);
    assert s == host + ":" + (digits + ":" + "");
    SplitAllFirst(host, ":", digits + ":" + "");
    SplitAllFirst(digits, ":", "");
    var all := SplitAll(s, ":");
    assert all == [host, digits, ""];
    assert DropTrailingEmpty(all) == DropTrailingEmpty([host, digits]);
  }

  /** "host:port:extra" with a non-empty extra is refused. */
  lemma ExtraColonRefused(host: string, port: int, extra: string)
    requires PlainHost(host) && PlainHost(extra) && !IsTrimmed(extra[|extra| - 1])
    ensures ParseServerAddress(host + ":" + IntToString(port) + ":" + extra) == AddressError("Invalid server address format.")
  {
    ExtraColonUnstripped(host, port, extra);
    ExtraColonPieces(host, port, extra);
    TooManyPieces(host + ":" + IntToString(port) + ":" + extra);
  }

  lemma ExtraColonUnstripped(host: string, port: int, extra: string)
    requires PlainHost(host) && PlainHost(extra) && !IsTrimmed(extra[|extra| - 1])
    ensures var s := host + ":" + IntToString(port) + ":" + extra; StripScheme(Trim(s)) == s
  {
    var digits := IntToString(port);
    var s := host + ":" + digits + ":" + extra;
    assert s[|s| - 1] == extra[|extra| - 1];
    TrimUnchanged(s);
    IntLacksSlash(port);
    ColonJoinLacksSlash(host, digits);
    ColonJoinLacksSlash(host + ":" + digits, extra);
    NoScheme(s);
  }

  lemma ExtraColonPieces(host: string, port: int, extra: string)
    requires PlainHost(host) && PlainHost(extra)
    ensures var s := host + ":" + IntToString(port) + ":" + extra; Contains(s, ":") && |Split(s, ":")| != 2
  {
    var digits := IntToString(port);
    var s := host + ":" + digits + ":" + extra;
    assert OccursAt(s, ":", |host|);
    ContainsAt(s, ":");
    IntToStringPlain(port);
    assert s == host + ":" + (digits + ":" + extra);
    SplitAllFirst(host, ":", digits + ":" + extra);
    SplitAllFirst(digits, ":", extra);
    SplitAllWhole(extra, ":");
  }

  /** A text with a colon that does not split into exactly two pieces is
      refused with the format message. */
  lemma TooManyPieces(input: string)
    requires var s := StripScheme(Trim(input)); Contains(s, ":") && |Split(s, ":")| != 2
    ensures ParseServerAddress(input) == AddressError("Invalid server address format.")
  {
  }

  /** A port that is not a decimal `int` is refused with the port message. */
  lemma BadPortRefused(host: string, port: string)
    requires PlainHost(host) && PlainHost(port) && !IsTrimmed(port[|port| - 1])
    requires ParseInt(port).None?
    ensures ParseServerAddress(host + ":" + port) == AddressError("Invalid port number format.")
  {
    var s := host + ":" + port;
    assert s[|s| - 1] == port[|port| - 1];
    TrimUnchanged(s);
    ColonJoinLacksSlash(host, port);
    NoScheme(s);
    assert OccursAt(s, ":", |host|);
    ContainsAt(s, ":");
    SplitNameValue(host, ":", port);
  }

  // ---------------------------------------------------------------------------
  // One fetch

  /** The request text the client writes, carrying its clock. */
  function GetRequest(clock: int): string {
    Line("GET / HTTP/1.1") + Line("Host: localhost") + Line("Connection: close") +
    Line("Lamport-Clock: " + IntToString(clock)) + CrLf
  }

  /** The client's clock after one fetch, the request it sent, the text it
      accumulated from the response, and how the run ended. */
  datatype Fetched = Fetched(clock: int, request: string, fullResponse: string, outcome: Outcome)

  /** One fetch as a function of the client's clock and the response lines:
      tick, send, scan the response for the last clock, and update by it (-1
      when there was none, which leaves the clock alone). A malformed clock
      line throws before the update. */
  function Fetch(clock: int, responseLines: seq<string>): Fetched {
    var t := Step(clock, Local);
    var request := GetRequest(t);
    match ScanClock(responseLines, "Lamport-Clock:", -1)
    case None => Fetched(t, request, "", Crashed("malformed Lamport-Clock header"))
    case Some(received) => Fetched(Step(t, Receive(received)), request, AppendLines(responseLines), Completed)
  }

  /** The response loop: accumulate every line with a newline and keep the
      value of the last Lamport-Clock line. */
  method ReadResponse(responseLines: seq<string>) returns (fullResponse: string, receivedClock: Option<int>)
    ensures receivedClock == ScanClock(responseLines, "Lamport-Clock:", -1)
    ensures receivedClock.Some? ==> fullResponse == AppendLines(responseLines)
  {
    fullResponse := "";
    var received := -1;
    var i := 0;
    while i < |responseLines|
      invariant 0 <= i <= |responseLines|
      invariant ScanClock(responseLines[i..], "Lamport-Clock:", received) == ScanClock(responseLines, "Lamport-Clock:", -1)
      invariant fullResponse == AppendLines(responseLines[..i])
    {
      var line := responseLines[i];
      assert responseLines[i..][1..] == responseLines[i + 1..];
      assert responseLines[..i + 1] == responseLines[..i] + [line];
      AppendLinesSnoc(responseLines[..i], line);
      fullResponse := fullResponse + line + "\n";
      if StartsWith(line, "Lamport-Clock:") {
        var value := ClockHeaderValue(line);
        if value.None? {
          return fullResponse, None;
        }
        received := value.value;
      }
      i := i + 1;
    }
    assert responseLines[..i] == responseLines;
    receivedClock := Some(received);
  }

  /** `main` after the address is known: one fetch with the client's clock. */
  method FetchData(clock: LamportClock, responseLines: seq<string>) returns (request: string, fullResponse: string, outcome: Outcome)
    modifies clock
    ensures Fetched(clock.clock, request, fullResponse, outcome) == Fetch(old(clock.clock), responseLines)
  {
    clock.Tick();
    var currentClock := clock.GetTime();
    request := GetRequest(currentClock);
    var receivedClock;
    fullResponse, receivedClock := ReadResponse(responseLines);
    if receivedClock.None? {
      return request, "", Crashed("malformed Lamport-Clock header");
    }
    clock.Update(receivedClock.value);
    outcome := Completed;
  }

  /** The request carries the clock after exactly one tick. */
  lemma FetchSendsTickedClock(clock: int, responseLines: seq<string>)
    ensures Fetch(clock, responseLines).request == GetRequest(clock + 1)
  {
  }

  /** The client's clock after a fetch: one tick, then the last clock the
      response carried is added with one more, or nothing when the response
      carried none; and the accumulated text reads back as the response lines. */
  lemma FetchClock(clock: int, responseLines: seq<string>)
    requires ClockLinesParse(responseLines, "Lamport-Clock:")
    requires forall i :: 0 <= i < |responseLines| ==> NoLineBreak(responseLines[i])
    ensures var f := Fetch(clock, responseLines);
      f.outcome == Completed && ReadLines(f.fullResponse) == responseLines &&
      match LastWith(responseLines, "Lamport-Clock:")
      case None => f.clock == clock + 1
      case Some(i) => f.clock == clock + 1 + ClockHeaderValue(responseLines[i]).value + 1
  {
    ScanClockIsLast(responseLines, "Lamport-Clock:", -1);
    AppendLinesReadBack(responseLines);
  }
}
