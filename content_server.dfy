/** The content server (ContentServer.java): it reads `key:value` lines from
    its data file into an insertion-ordered map, ticks its clock, sends a PUT
    request carrying the JSON text and the clock, and reconciles its clock with
    the last Lamport-Clock value of the response.

    The file and the socket are replaced by the lines `readLine` would return.
    The JSON text of the map (Gson's `toJson`) is a parameter. */
module ContentServer {
  import opened JavaText
  import opened Wire
  import opened Lamport

  // ---------------------------------------------------------------------------
  // LinkedHashMap<String, String>

  /** A map that remembers the order in which its keys were first put. */
  datatype LinkedMap = LinkedMap(order: seq<string>, entries: map<string, string>)
  {
    /** Every key is listed once, and the listed keys are the map's keys. */
    predicate Valid() {
      (forall i, j :: 0 <= i < j < |order| ==> order[i] != order[j]) &&
      (forall k :: k in entries ==> k in order) &&
      (forall i :: 0 <= i < |order| ==> order[i] in entries)
    }
  }

  const Empty := LinkedMap([], map[])

  /** `put(k, v)`: the value of `k` becomes `v`; a key already present keeps
      its position, a new key goes last. */
  function Put(m: LinkedMap, k: string, v: string): (r: LinkedMap)
    requires m.Valid()
    ensures r.Valid()
    ensures r.entries == m.entries[k := v]
    ensures k in m.entries ==> r.order == m.order
    ensures k !in m.entries ==> r.order == m.order + [k]
  {
    if k in m.entries then LinkedMap(m.order, m.entries[k := v])
    else LinkedMap(m.order + [k], m.entries[k := v])
  }

  // ---------------------------------------------------------------------------
  // readDataFile

  type Entry = (string, string)

  /** What one line of the data file contributes: when it splits at colons
      into exactly two pieces, the first piece as it is and the second trimmed. */
  function EntryOf(line: string): Option<Entry> {
    var parts := Split(line, ":");
    if |parts| == 2 then Some((parts[0], Trim(parts[1]))) else None
  }

  predicate KeyIs(e: Option<Entry>, k: string) {
    e.Some? && e.value.0 == k
  }

  predicate IsEntryFor(line: string, k: string) {
    KeyIs(EntryOf(line), k)
  }

  /** The map obtained by putting the given entries one after the other,
      skipping the lines that contributed none. */
  function Build(entries: seq<Option<Entry>>): (m: LinkedMap)
    ensures m.Valid()
    decreases |entries|
  {
    if entries == [] then Empty
    else
      var m := Build(entries[..|entries| - 1]);
      match entries[|entries| - 1]
      case None => m
      case Some(e) => Put(m, e.0, e.1)
  }

  function EntriesOf(lines: seq<string>): (entries: seq<Option<Entry>>)
    ensures |entries| == |lines|
    ensures forall i :: 0 <= i < |lines| ==> entries[i] == EntryOf(lines[i])
  {
    seq(|lines|, i requires 0 <= i < |lines| => EntryOf(lines[i]))
  }

  /** The map `readDataFile` builds from the given lines. */
  function ParseData(lines: seq<string>): LinkedMap {
    Build(EntriesOf(lines))
  }

  /** The loop of `readDataFile`. */
  method ReadDataFile(lines: seq<string>) returns (data: LinkedMap)
    ensures data == ParseData(lines)
  {
    data := Empty;
    var i := 0;
    while i < |lines|
      invariant 0 <= i <= |lines|
      invariant data == ParseData(lines[..i])
    {
      var line := lines[i];
      assert EntriesOf(lines[..i + 1])[..i] == EntriesOf(lines[..i]);
      var parts := Split(line, ":");
      if |parts| == 2 {
        data := Put(data, parts[0], Trim(parts[1]));
      }
      i := i + 1;
    }
    assert lines[..i] == lines;
  }

  /** `k:v` is read as the entry `k` with `v` trimmed, when neither contains a
      colon; the key keeps its blanks. */
  lemma EntryTrimsValueOnly(k: string, v: string)
    requires v != [] && Lacks(k, ':') && Lacks(v, ':')
    ensures EntryOf(k + ":" + v) == Some((k, Trim(v)))
  {
    SplitNameValue(k, ":", v);
  }

  /** A line without a colon contributes nothing. */
  lemma NoColonSkipped(line: string)
    requires Lacks(line, ':')
    ensures EntryOf(line).None?
  {
    SplitAllWhole(line, ":");
  }

  /** "key:" contributes nothing: the trailing empty piece is dropped. */
  lemma MissingValueSkipped(k: string)
    requires Lacks(k, ':')
    ensures EntryOf(k + ":").None?
  {
    assert k + ":" + "" == k + ":";
    SplitAllFirst(k, ":", "");
  }

  /** A line with a second colon followed by more text contributes nothing. */
  lemma ExtraColonSkipped(k: string, v: string, extra: string)
    requires Lacks(k, ':') && Lacks(v, ':') && Lacks(extra, ':') && extra != []
    ensures EntryOf(k + ":" + v + ":" + extra).None?
  {
    assert k + ":" + v + ":" + extra == k + ":" + (v + ":" + extra);
    SplitAllFirst(k, ":", v + ":" + extra);
    SplitAllFirst(v, ":", extra);
    SplitAllWhole(extra, ":");
  }

  /** A line that ends in its second colon is still an entry: dropping the
      trailing empty piece leaves exactly two. */
  lemma TrailingColonAccepted(k: string, v: string)
    requires v != [] && Lacks(k, ':') && Lacks(v, ':')
    ensures EntryOf(k + ":" + v + ":") == Some((k, Trim(v)))
  {
    assert k + ":" + v + ":" == k + ":" + (v + ":" + "");
    SplitAllFirst(k, ":", v + ":" + "");
    SplitAllFirst(v, ":", "");
    var all := SplitAll(k + ":" + v + ":", ":");
    assert all == [k, v, ""];
    assert DropTrailingEmpty(all) == DropTrailingEmpty([k, v]);
  }

  /** A line `k:v` with a plain value is the entry (k, v). */
  lemma PlainEntry(line: string, k: string, v: string)
    requires line == k + ":" + v
    requires v != [] && Lacks(k, ':') && Lacks(v, ':') && !IsTrimmed(v[0]) && !IsTrimmed(v[|v| - 1])
    ensures EntryOf(line) == Some((k, v))
  {
    EntryTrimsValueOnly(k, v);
    TrimUnchanged(v);
  }

  /** The file of the tests: two plain lines give two entries in file order. */
  lemma TwoLinesExample()
    ensures ParseData(["key1:value1", "key2:value2"]) ==
      LinkedMap(["key1", "key2"], map["key1" := "value1", "key2" := "value2"])
  {
    FirstTestLine();
    SecondTestLine();
    TwoEntryLines("key1:value1", "key2:value2", "key1", "value1", "key2", "value2");
  }

  /** Two lines that each parse to an entry, with different keys. */
  lemma TwoEntryLines(line1: string, line2: string, k1: string, v1: string, k2: string, v2: string)
    requires EntryOf(line1) == Some((k1, v1)) && EntryOf(line2) == Some((k2, v2)) && k1 != k2
    ensures ParseData([line1, line2]) == LinkedMap([k1, k2], map[k1 := v1, k2 := v2])
  {
    assert EntriesOf([line1, line2]) == [Some((k1, v1)), Some((k2, v2))];
    TwoEntries(k1, v1, k2, v2);
  }

  lemma FirstTestLine()
    ensures EntryOf("key1:value1") == Some(("key1", "value1"))
  {
    PlainEntry("key1:value1", "key1", "value1");
  }

  lemma SecondTestLine()
    ensures EntryOf("key2:value2") == Some(("key2", "value2"))
  {
    PlainEntry("key2:value2", "key2", "value2");
  }

  lemma TwoEntries(k1: string, v1: string, k2: string, v2: string)
    requires k1 != k2
    ensures Build([Some((k1, v1)), Some((k2, v2))]) == LinkedMap([k1, k2], map[k1 := v1, k2 := v2])
  {
    var es := [Some((k1, v1)), Some((k2, v2))];
    assert es[..1] == [Some((k1, v1))];
    assert es[..1][..0] == [];
    assert Build(es[..1]) == LinkedMap([k1], map[k1 := v1]);
    assert [k1] + [k2] == [k1, k2];
  }

  /** A key is in the built map exactly when some entry is for it. */
  lemma {:induction false} BuildKeys(es: seq<Option<Entry>>, k: string)
    ensures k in Build(es).entries <==> exists i :: 0 <= i < |es| && KeyIs(es[i], k)
    decreases |es|
  {
    if es != [] {
      var n := |es| - 1;
      var init := es[..n];
      BuildKeys(init, k);
      assert forall i :: 0 <= i < n ==> es[i] == init[i];
    }
  }

  /** `es[i]` is the last entry for `k`. */
  predicate LastFor(es: seq<Option<Entry>>, k: string, i: int) {
    0 <= i < |es| && KeyIs(es[i], k) && forall j :: i < j < |es| ==> !KeyIs(es[j], k)
  }

  /** An entry for another key leaves the value of `k` alone. */
  lemma BuildOtherKey(es: seq<Option<Entry>>, k: string)
    requires es != [] && !KeyIs(es[|es| - 1], k)
    ensures var init := Build(es[..|es| - 1]).entries;
      (k in Build(es).entries <==> k in init) &&
      (k in init ==> Build(es).entries[k] == init[k])
  {
  }

  /** The last entry for `k` stays the last one when an entry for another key
      follows. */
  lemma LastForExtends(es: seq<Option<Entry>>, k: string, i: int)
    requires es != [] && !KeyIs(es[|es| - 1], k) && LastFor(es[..|es| - 1], k, i)
    ensures LastFor(es, k, i) && es[i] == es[..|es| - 1][i]
  {
    var init := es[..|es| - 1];
    assert forall j :: 0 <= j < |init| ==> es[j] == init[j];
  }

  /** The value of a key in the built map is the value of its last entry. */
  lemma {:induction false} BuildValue(es: seq<Option<Entry>>, k: string)
    requires k in Build(es).entries
    ensures exists i :: LastFor(es, k, i) && es[i] == Some((k, Build(es).entries[k]))
    decreases |es|
  {
    var n := |es| - 1;
    if KeyIs(es[n], k) {
      assert LastFor(es, k, n) && es[n] == Some((k, Build(es).entries[k]));
    } else {
      var init := es[..n];
      BuildOtherKey(es, k);
      BuildValue(init, k);
      var i :| LastFor(init, k, i) && init[i] == Some((k, Build(init).entries[k]));
      LastForExtends(es, k, i);
    }
  }

  /** The built keys stand in the order of their first entries: an entry for
      a later key is preceded by an entry for every earlier key. */
  lemma {:induction false} BuildOrder(es: seq<Option<Entry>>, p: nat, q: nat, j: nat)
    requires p < q < |Build(es).order| && j < |es| && KeyIs(es[j], Build(es).order[q])
    ensures exists i :: 0 <= i < j && KeyIs(es[i], Build(es).order[p])
    decreases |es|
  {
    var n := |es| - 1;
    var init := es[..n];
    var order := Build(es).order;
    var oldOrder := Build(init).order;
    assert order[p] == oldOrder[p];
    if j == n {
      BuildKeys(init, order[p]);
      var i :| 0 <= i < n && KeyIs(init[i], order[p]);
      assert es[i] == init[i];
    } else {
      assert es[j] == init[j];
      BuildKeys(init, order[q]);
      assert q < |oldOrder|;
      BuildOrder(init, p, q, j);
      var i :| 0 <= i < j && KeyIs(init[i], oldOrder[p]);
      assert es[i] == init[i];
    }
  }

  /** `readDataFile` keeps a key exactly when some line is an entry for it. */
  lemma ParseDataKeys(lines: seq<string>, k: string)
    ensures k in ParseData(lines).entries <==> exists i :: 0 <= i < |lines| && IsEntryFor(lines[i], k)
  {
    var es := EntriesOf(lines);
    BuildKeys(es, k);
    if exists i :: 0 <= i < |es| && KeyIs(es[i], k) {
      var i :| 0 <= i < |es| && KeyIs(es[i], k);
      assert IsEntryFor(lines[i], k);
    }
  }

  /** A repeated key has the trimmed value of its last line. */
  lemma ParseDataValue(lines: seq<string>, k: string)
    requires k in ParseData(lines).entries
    ensures exists i :: 0 <= i < |lines| && EntryOf(lines[i]) == Some((k, ParseData(lines).entries[k])) &&
                        forall j :: i < j < |lines| ==> !IsEntryFor(lines[j], k)
  {
    var es := EntriesOf(lines);
    BuildValue(es, k);
    var i :| LastFor(es, k, i) && es[i] == Some((k, Build(es).entries[k]));
    assert forall j :: i < j < |lines| ==> !IsEntryFor(lines[j], k) by {
      forall j | i < j < |lines| ensures !IsEntryFor(lines[j], k) {
        assert !KeyIs(es[j], k);
      }
    }
  }

  /** `readDataFile` lists the keys in the order of their first lines: a line
      for a later key is preceded by a line for every earlier key, so a
      repeated key keeps its first position. */
  lemma ParseDataOrder(lines: seq<string>, p: nat, q: nat, j: nat)
    requires p < q < |ParseData(lines).order| && j < |lines| && IsEntryFor(lines[j], ParseData(lines).order[q])
    ensures exists i :: 0 <= i < j && IsEntryFor(lines[i], ParseData(lines).order[p])
  {
    var es := EntriesOf(lines);
    BuildOrder(es, p, q, j);
    var i :| 0 <= i < j && KeyIs(es[i], Build(es).order[p]);
    assert IsEntryFor(lines[i], ParseData(lines).order[p]);
  }

  // ---------------------------------------------------------------------------
  // One push

  /** The PUT request text: six header lines, a blank line and the JSON text,
      with the JSON text's length as Content-Length and the given clock. */
  function PutRequest(jsonData: string, clock: int): string {
    Line("PUT /data HTTP/1.1") + Line("Host: localhost") + Line("Content-Type: application/json") +
    Line("Content-Length: " + IntToString(|jsonData|)) + Line("Lamport-Clock: " + IntToString(clock)) +
    Line("Connection: close") + CrLf + jsonData
  }

  /** The content server's clock after one push, the request it sent and how
      the run ended. */
  datatype Pushed = Pushed(clock: int, request: string, outcome: Outcome)

  /** The prefix the content server's response loop matches: without the
      colon the GET client and the server use. */
  const ResponseClockPrefix := "Lamport-Clock"

  /** One push as a function of the clock, the JSON text and the response
      lines: tick, send, scan the response for the last clock, and update by it
      only when one was found. */
  function Push(clock: int, jsonData: string, responseLines: seq<string>): Pushed {
    var t := Step(clock, Local);
    var request := PutRequest(jsonData, t);
    match ScanClock(responseLines, ResponseClockPrefix, -1)
    case None => Pushed(t, request, Crashed("malformed Lamport-Clock header"))
    case Some(received) =>
      Pushed(if received != -1 then Step(t, Receive(received)) else t, request, Completed)
  }

  /** The response loop of `main`. */
  method ReadServerResponse(responseLines: seq<string>) returns (receivedClock: Option<int>)
    ensures receivedClock == ScanClock(responseLines, ResponseClockPrefix, -1)
  {
    var received := -1;
    var i := 0;
    while i < |responseLines|
      invariant 0 <= i <= |responseLines|
      invariant ScanClock(responseLines[i..], ResponseClockPrefix, received) == ScanClock(responseLines, ResponseClockPrefix, -1)
    {
      var line := responseLines[i];
      assert responseLines[i..][1..] == responseLines[i + 1..];
      if StartsWith(line, ResponseClockPrefix) {
        var value := ClockHeaderValue(line);
        if value.None? {
          return None;
        }
        received := value.value;
      }
      i := i + 1;
    }
    receivedClock := Some(received);
  }

  /** `main` from the tick on, with the content server's clock. */
  method PushData(clock: LamportClock, jsonData: string, responseLines: seq<string>) returns (request: string, outcome: Outcome)
    modifies clock
    ensures Pushed(clock.clock, request, outcome) == Push(old(clock.clock), jsonData, responseLines)
  {
    clock.Tick();
    var currentClock := clock.GetTime();
    request := PutRequest(jsonData, currentClock);
    var receivedClock := ReadServerResponse(responseLines);
    if receivedClock.None? {
      return request, Crashed("malformed Lamport-Clock header");
    }
    if receivedClock.value != -1 {
      clock.Update(receivedClock.value);
    }
    outcome := Completed;
  }

  /** The content server's clock after a push: one tick, then, when the
      response carried a clock line, the last one's value plus one. */
  lemma PushClock(clock: int, jsonData: string, responseLines: seq<string>)
    requires ClockLinesParse(responseLines, ResponseClockPrefix)
    ensures var p := Push(clock, jsonData, responseLines);
      p.outcome == Completed && p.request == PutRequest(jsonData, clock + 1) &&
      match LastWith(responseLines, ResponseClockPrefix)
      case None => p.clock == clock + 1
      case Some(i) =>
        var r := ClockHeaderValue(responseLines[i]).value;
        p.clock == (if r == -1 then clock + 1 else clock + 1 + r + 1)
  {
    ScanClockIsLast(responseLines, ResponseClockPrefix, -1);
  }
}
