/** The pieces of Java's String, Integer and BufferedReader behaviour that the
    aggregation server and its two clients depend on, written out as functions
    over `seq<char>` so that their edge cases are part of the model:
    `String.trim`, `startsWith`, `contains`, `split` (which drops trailing empty
    strings), `Integer.parseInt`, `String.valueOf(int)` and the line splitting of
    `BufferedReader.readLine`. */
module JavaText {

  datatype Option<+T> = None | Some(value: T)

  /** Range of Java's 32-bit `int`. */
  const IntMin: int := -0x8000_0000
  const IntMax: int := 0x7FFF_FFFF

  predicate IsInt32(n: int) { IntMin <= n <= IntMax }

  // ---------------------------------------------------------------------------
  // startsWith / contains

  predicate StartsWith(s: string, prefix: string) {
    |prefix| <= |s| && s[..|prefix|] == prefix
  }

  /** `s.contains(t)`: `t` occurs at some position of `s`. */
  predicate Contains(s: string, t: string)
    decreases |s|
  {
    StartsWith(s, t) || (|s| > 0 && Contains(s[1..], t))
  }

  /** `c` does not occur in `s`. */
  predicate Lacks(s: string, c: char) {
    forall i :: 0 <= i < |s| ==> s[i] != c
  }

  /** `t` occurs in `s` starting at index `i`. */
  predicate OccursAt(s: string, t: string, i: int) {
    0 <= i <= |s| - |t| && s[i..i + |t|] == t
  }

  /** The recursive `Contains` agrees with "some index starts an occurrence". */
  lemma {:induction false} ContainsAt(s: string, t: string)
    ensures Contains(s, t) <==> exists i :: OccursAt(s, t, i)
    decreases |s|
  {
    if StartsWith(s, t) {
      assert OccursAt(s, t, 0);
    } else if |s| > 0 {
      ContainsAt(s[1..], t);
      if Contains(s[1..], t) {
        var i :| OccursAt(s[1..], t, i);
        assert s[i + 1..i + 1 + |t|] == s[1..][i..i + |t|];
        assert OccursAt(s, t, i + 1);
      }
      if i :| OccursAt(s, t, i) {
        assert i != 0;
        assert s[1..][i - 1..i - 1 + |t|] == s[i..i + |t|];
        assert OccursAt(s[1..], t, i - 1);
      }
    }
  }

  /** A text in which the first character of `t` never occurs does not contain `t`. */
  lemma {:induction false} LacksNotContains(s: string, t: string)
    requires t != [] && Lacks(s, t[0])
    ensures !Contains(s, t)
    decreases |s|
  {
    if |s| > 0 {
      LacksNotContains(s[1..], t);
    }
  }

  // ---------------------------------------------------------------------------
  // trim

  /** `String.trim` removes every leading and trailing character whose code is
      at most U+0020. */
  predicate IsTrimmed(c: char) { c <= ' ' }

  function TrimLeading(s: string): (r: string)
    ensures |r| <= |s| && r == s[|s| - |r|..]
    ensures r == [] || !IsTrimmed(r[0])
    ensures forall i :: 0 <= i < |s| - |r| ==> IsTrimmed(s[i])
    decreases |s|
  {
    if |s| > 0 && IsTrimmed(s[0]) then TrimLeading(s[1..]) else s
  }

  function TrimTrailing(s: string): (r: string)
    ensures |r| <= |s| && r == s[..|r|]
    ensures r == [] || !IsTrimmed(r[|r| - 1])
    ensures forall i :: |r| <= i < |s| ==> IsTrimmed(s[i])
    decreases |s|
  {
    if |s| > 0 && IsTrimmed(s[|s| - 1]) then TrimTrailing(s[..|s| - 1]) else s
  }

  function Trim(s: string): string {
    TrimTrailing(TrimLeading(s))
  }

  /** Trimming leaves a text alone when it neither starts nor ends with white space. */
  lemma TrimUnchanged(s: string)
    requires s == [] || (!IsTrimmed(s[0]) && !IsTrimmed(s[|s| - 1]))
    ensures Trim(s) == s
  {
  }

  // ---------------------------------------------------------------------------
  // split

  /** Every piece between occurrences of `sep`, scanning left to right, with
      no piece dropped (`String.split` with a negative limit). */
  function SplitAll(s: string, sep: string): (parts: seq<string>)
    requires sep != []
    ensures |parts| >= 1
    decreases |s|
  {
    if |s| < |sep| then [s]
    else if s[..|sep|] == sep then [""] + SplitAll(s[|sep|..], sep)
    else
      var rest := SplitAll(s[1..], sep);
      [[s[0]] + rest[0]] + rest[1..]
  }

  /** `String.join(sep, parts)`. */
  function Join(parts: seq<string>, sep: string): string
    requires |parts| >= 1
    decreases |parts|
  {
    if |parts| == 1 then parts[0] else parts[0] + sep + Join(parts[1..], sep)
  }

  /** Prefixing the first piece prefixes the joined text. */
  lemma JoinPrefix(c: char, parts: seq<string>, sep: string)
    requires |parts| >= 1
    ensures Join([[c] + parts[0]] + parts[1..], sep) == [c] + Join(parts, sep)
  {
    var q := [[c] + parts[0]] + parts[1..];
    if |parts| > 1 {
      assert q[1..] == parts[1..];
    }
  }

  /** An empty first piece contributes only the separator. */
  lemma JoinEmptyFirst(parts: seq<string>, sep: string)
    requires |parts| >= 1
    ensures Join([""] + parts, sep) == sep + Join(parts, sep)
  {
    assert ([""] + parts)[1..] == parts;
  }

  /** Joining the pieces back with the separator gives the original text. */
  lemma {:induction false} SplitAllJoin(s: string, sep: string)
    requires sep != []
    ensures Join(SplitAll(s, sep), sep) == s
    decreases |s|
  {
    if |s| < |sep| {
    } else if s[..|sep|] == sep {
      var rest := SplitAll(s[|sep|..], sep);
      SplitAllJoin(s[|sep|..], sep);
      JoinEmptyFirst(rest, sep);
      assert s == sep + s[|sep|..];
    } else {
      var rest := SplitAll(s[1..], sep);
      SplitAllJoin(s[1..], sep);
      JoinPrefix(s[0], rest, sep);
      assert s == [s[0]] + s[1..];
    }
  }

  /** A text without the separator's first character is one piece. */
  lemma {:induction false} SplitAllWhole(s: string, sep: string)
    requires sep != [] && Lacks(s, sep[0])
    ensures SplitAll(s, sep) == [s]
    decreases |s|
  {
    if |s| >= |sep| {
      assert s[..|sep|][0] == s[0];
      SplitAllWhole(s[1..], sep);
      assert [s[0]] + s[1..] == s;
    }
  }

  /** The first piece ends at the first occurrence of the separator. */
  lemma {:induction false} SplitAllFirst(a: string, sep: string, b: string)
    requires sep != [] && Lacks(a, sep[0])
    ensures SplitAll(a + sep + b, sep) == [a] + SplitAll(b, sep)
    decreases |a|
  {
    var s := a + sep + b;
    if a == [] {
      assert s[..|sep|] == sep;
      assert s[|sep|..] == b;
    } else {
      assert s[..|sep|][0] == a[0];
      assert s[1..] == a[1..] + sep + b;
      SplitAllFirst(a[1..], sep, b);
      assert [a[0]] + a[1..] == a;
    }
  }

  /** The pieces left after removing trailing empty strings. */
  function DropTrailingEmpty(parts: seq<string>): (r: seq<string>)
    ensures r <= parts
    ensures r == [] || r[|r| - 1] != ""
    ensures forall i :: |r| <= i < |parts| ==> parts[i] == ""
    decreases |parts|
  {
    if parts == [] || parts[|parts| - 1] != "" then parts
    else DropTrailingEmpty(parts[..|parts| - 1])
  }

  /** `s.split(sep)` for a literal separator: when the separator does not occur
      the whole text is the only piece (even when it is empty); otherwise the
      trailing empty pieces are removed. */
  function Split(s: string, sep: string): seq<string>
    requires sep != []
  {
    var all := SplitAll(s, sep);
    if |all| == 1 then all else DropTrailingEmpty(all)
  }

  // ---------------------------------------------------------------------------
  // Integer.parseInt and String.valueOf(int)

  predicate IsDigit(c: char) { '0' <= c <= '9' }

  predicate AllDigits(s: string) {
    forall i :: 0 <= i < |s| ==> IsDigit(s[i])
  }

  function DigitValue(c: char): nat
    requires IsDigit(c)
  {
    c as int - '0' as int
  }

  function Digit(d: nat): (c: char)
    requires d < 10
    ensures IsDigit(c) && DigitValue(c) == d
  {
    (d + '0' as int) as char
  }

  /** The number a string of decimal digits denotes. */
  function DigitsValue(s: string): nat
    requires AllDigits(s)
    decreases |s|
  {
    if s == [] then 0 else 10 * DigitsValue(s[..|s| - 1]) + DigitValue(s[|s| - 1])
  }

  /** Decimal digits of `n`, without leading zeros. */
  function NatToString(n: nat): (s: string)
    ensures s != [] && AllDigits(s)
    ensures DigitsValue(s) == n
    ensures |s| > 1 ==> s[0] != '0'
    decreases n
  {
    if n < 10 then [Digit(n)]
    else
      var init := NatToString(n / 10);
      var s := init + [Digit(n % 10)];
      assert s[..|s| - 1] == init;
      assert s[0] == init[0];
      s
  }

  /** `String.valueOf(n)` / string concatenation of an `int`. */
  function IntToString(n: int): string {
    if n < 0 then "-" + NatToString(-n) else NatToString(n)
  }

  /** `Integer.parseInt(s)` on ASCII input: an optional sign, at least one
      digit and nothing else, with a value that fits in an `int`; `None`
      stands for the `NumberFormatException`. */
  function ParseInt(s: string): (r: Option<int>)
    ensures r.Some? ==> IsInt32(r.value)
  {
    if s == [] then None
    else
      var digits := if s[0] == '-' || s[0] == '+' then s[1..] else s;
      if digits == [] || !AllDigits(digits) then None
      else
        var n: int := if s[0] == '-' then -(DigitsValue(digits) as int) else DigitsValue(digits);
        if IsInt32(n) then Some(n) else None
  }

  /** Every `int` printed in decimal parses back to itself. */
  lemma ParseIntToString(n: int)
    requires IsInt32(n)
    ensures ParseInt(IntToString(n)) == Some(n)
  {
    if n < 0 {
      var s := IntToString(n);
      assert s[1..] == NatToString(-n);
    }
  }

  /** What a printed `int` is made of: a minus sign or digits, never a colon,
      a space or a line break, and it ends in a digit. */
  lemma IntToStringChars(n: int)
    ensures var s := IntToString(n);
      s != [] && IsDigit(s[|s| - 1]) && !IsTrimmed(s[0]) &&
      forall i :: 0 <= i < |s| ==> IsDigit(s[i]) || s[i] == '-'
  {
  }

  /** A printed `int` contains no colon, space or line break. */
  lemma IntToStringPlain(n: int)
    ensures Lacks(IntToString(n), ':') && Lacks(IntToString(n), ' ')
    ensures NoLineBreak(IntToString(n))
  {
    IntToStringChars(n);
  }

  // ---------------------------------------------------------------------------
  // BufferedReader.readLine

  predicate IsLineBreak(c: char) { c == '\n' || c == '\r' }

  predicate NoLineBreak(s: string) {
    forall i :: 0 <= i < |s| ==> !IsLineBreak(s[i])
  }

  /** Two texts without line breaks joined have none. */
  lemma NoLineBreakAppend(a: string, b: string)
    requires NoLineBreak(a) && NoLineBreak(b)
    ensures NoLineBreak(a + b)
  {
    forall i | 0 <= i < |a + b|
      ensures !IsLineBreak((a + b)[i])
    {
      if i >= |a| { assert (a + b)[i] == b[i - |a|]; }
    }
  }

  /** Length of the line at the head of `s`: the index of the first line break,
      or `|s|` when there is none. */
  function LineEnd(s: string): (k: nat)
    ensures k <= |s| && NoLineBreak(s[..k])
    ensures k < |s| ==> IsLineBreak(s[k])
    decreases |s|
  {
    if s == [] || IsLineBreak(s[0]) then 0
    else
      var k := 1 + LineEnd(s[1..]);
      assert s[..k] == [s[0]] + s[1..][..k - 1];
      k
  }

  /** The successive results of `readLine` until it returns `null`: a line ends
      at "\n", "\r" or "\r\n", and a last line without a terminator is still
      returned when it is not empty. */
  function ReadLines(s: string): seq<string>
    decreases |s|
  {
    if s == [] then []
    else
      var k := LineEnd(s);
      var next :=
        if k == |s| then |s|
        else if s[k] == '\r' && k + 1 < |s| && s[k + 1] == '\n' then k + 2
        else k + 1;
      [s[..k]] + ReadLines(s[next..])
  }

  lemma {:induction false} LineEndOf(a: string, b: string)
    requires NoLineBreak(a) && (b == [] || IsLineBreak(b[0]))
    ensures LineEnd(a + b) == |a|
    decreases |a|
  {
    if a != [] {
      assert (a + b)[1..] == a[1..] + b;
      LineEndOf(a[1..], b);
    }
  }

  /** A line terminated by "\r\n" is read whole, and reading resumes after it. */
  lemma ReadLinesCrLf(a: string, b: string)
    requires NoLineBreak(a)
    ensures ReadLines(a + "\r\n" + b) == [a] + ReadLines(b)
  {
    var s := a + "\r\n" + b;
    LineEndOf(a, "\r\n" + b);
    assert a + ("\r\n" + b) == s;
    assert s[..|a|] == a;
    assert s[|a| + 2..] == b;
  }

  /** A line terminated by "\n" is read whole, and reading resumes after it. */
  lemma ReadLinesLf(a: string, b: string)
    requires NoLineBreak(a)
    ensures ReadLines(a + "\n" + b) == [a] + ReadLines(b)
  {
    var s := a + "\n" + b;
    LineEndOf(a, "\n" + b);
    assert a + ("\n" + b) == s;
    assert s[..|a|] == a;
    assert s[|a| + 1..] == b;
  }

  /** A non-empty text without line breaks is read as one line. */
  lemma ReadLinesLast(a: string)
    requires a != [] && NoLineBreak(a)
    ensures ReadLines(a) == [a]
  {
    LineEndOf(a, []);
    assert a + [] == a;
  }

  /** What a `StringBuilder` holds after `append(line).append("\n")` for each line. */
  function AppendLines(lines: seq<string>): string
    decreases |lines|
  {
    if lines == [] then "" else lines[0] + "\n" + AppendLines(lines[1..])
  }

  /** Appending one more line extends the text by that line and a newline. */
  lemma {:induction false} AppendLinesSnoc(lines: seq<string>, line: string)
    ensures AppendLines(lines + [line]) == AppendLines(lines) + line + "\n"
    decreases |lines|
  {
    if lines == [] {
      assert [] + [line] == [line];
    } else {
      assert (lines + [line])[1..] == lines[1..] + [line];
      AppendLinesSnoc(lines[1..], line);
    }
  }

  /** Reading back the accumulated text gives the same lines. */
  lemma {:induction false} AppendLinesReadBack(lines: seq<string>)
    requires forall i :: 0 <= i < |lines| ==> NoLineBreak(lines[i])
    ensures ReadLines(AppendLines(lines)) == lines
    decreases |lines|
  {
    if lines != [] {
      AppendLinesReadBack(lines[1..]);
      ReadLinesLf(lines[0], AppendLines(lines[1..]));
    }
  }
}
