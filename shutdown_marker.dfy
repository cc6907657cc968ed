/** analyzeLogs: the line pattern `^\[.+]\[.+]: .+=(\d+) rcon='shutdown'$`
    that announces an rcon shutdown, the scan of a server's output for the
    first such line, and the one-slot channel that carries the verdict. */
module ShutdownMarker {
  import opened Wrappers
  import opened Text
  import opened Errors

  const Suffix := " rcon='shutdown'"

  predicate IsDigit(ch: char)
  {
    '0' <= ch <= '9'
  }

  predicate AllDigits(s: string)
  {
    forall k :: 0 <= k < |s| ==> IsDigit(s[k])
  }

  /** The pattern read as a decomposition of the line: '[' A "][" B "]: " C
      '=' D " rcon='shutdown'", with A, B and C non-empty and newline-free
      (what `.+` matches), D one or more ASCII digits, and `i`, `j`, `q` the
      positions of "][", "]: " and '='. */
  predicate SplitsAt(s: string, i: int, j: int, q: int)
  {
    && 1 < i && i + 2 < j && j + 3 < q && q + 1 < |s| - |Suffix|
    && s[0] == '[' && s[i..i + 2] == "][" && s[j..j + 3] == "]: " && s[q] == '='
    && s[|s| - |Suffix|..] == Suffix
    && '\n' !in s[1..i] && '\n' !in s[i + 2..j] && '\n' !in s[j + 3..q]
    && AllDigits(s[q + 1..|s| - |Suffix|])
  }

  ghost predicate MatchesPattern(s: string)
  {
    exists i, j, q :: SplitsAt(s, i, j, q)
  }

  /** The line built from the four variable parts of the pattern. */
  function MarkerLine(a: string, b: string, c: string, d: string): string
  {
    "[" + a + "][" + b + "]: " + c + "=" + d + Suffix
  }

  /** The direct search that decides the pattern: the fixed suffix, no
      newline, the last '=' before the suffix followed only by digits, and a
      "][" at index 2 or later that comes at least three characters before a
      "]: " which leaves room for C. */
  predicate SearchAccepts(s: string)
  {
    && |s| > |Suffix| && s[|s| - |Suffix|..] == Suffix
    && '\n' !in s && s[0] == '['
    && var body := s[..|s| - |Suffix|];
       var q := LastIndexOf(body, '=');
       && 0 <= q && q + 1 < |body| && AllDigits(body[q + 1..])
       && var i := FindFrom(s, "][", 2);
          var j := FindLast(s, "]: ", q - 4);
          0 <= i && i + 3 <= j
  }

  /** No piece of a newline-free line holds a newline. */
  lemma NoNewlineSlice(s: string, a: int, b: int)
    requires 0 <= a <= b <= |s| && '\n' !in s
    ensures '\n' !in s[a..b]
  {
  }

  lemma SearchFindsSplit(s: string)
    requires SearchAccepts(s)
    ensures MatchesPattern(s)
  {
    var body := s[..|s| - |Suffix|];
    var q := LastIndexOf(body, '=');
    var i := FindFrom(s, "][", 2);
    var j := FindLast(s, "]: ", q - 4);
    NoNewlineSlice(s, 1, i);
    NoNewlineSlice(s, i + 2, j);
    NoNewlineSlice(s, j + 3, q);
    assert body[q + 1..] == s[q + 1..|s| - |Suffix|];
    assert SplitsAt(s, i, j, q);
  }

  /** A line with the pattern's shape holds no newline. */
  lemma SplitHasNoNewline(s: string, i: int, j: int, q: int)
    requires SplitsAt(s, i, j, q)
    ensures '\n' !in s
  {
    var n := |s| - |Suffix|;
    forall k | 0 <= k < |s|
      ensures s[k] != '\n'
    {
      if 1 <= k < i {
        assert s[k] == s[1..i][k - 1];
      } else if i <= k < i + 2 {
        assert s[k] == s[i..i + 2][k - i];
      } else if i + 2 <= k < j {
        assert s[k] == s[i + 2..j][k - i - 2];
      } else if j <= k < j + 3 {
        assert s[k] == s[j..j + 3][k - j];
      } else if j + 3 <= k < q {
        assert s[k] == s[j + 3..q][k - j - 3];
      } else if q < k < n {
        assert IsDigit(s[q + 1..n][k - q - 1]);
      } else if n <= k {
        assert s[k] == s[n..][k - n];
      }
    }
  }

  /** The '=' before the digits is the last '=' of the body. */
  lemma SplitLastEquals(s: string, i: int, j: int, q: int)
    requires SplitsAt(s, i, j, q)
    ensures LastIndexOf(s[..|s| - |Suffix|], '=') == q
  {
    var n := |s| - |Suffix|;
    var body := s[..n];
    forall k | q < k < n ensures body[k] != '=' {
      assert IsDigit(s[q + 1..n][k - q - 1]);
    }
    assert body[q] == '=';
  }

  lemma SplitPassesSearch(s: string, i: int, j: int, q: int)
    requires SplitsAt(s, i, j, q)
    ensures SearchAccepts(s)
  {
    var n := |s| - |Suffix|;
    SplitHasNoNewline(s, i, j, q);
    SplitLastEquals(s, i, j, q);
    assert s[..n][q + 1..] == s[q + 1..n];
    assert OccursAt(s, "][", i) && OccursAt(s, "]: ", j);
  }

  /** The search decides the pattern. */
  lemma SearchIff(s: string)
    ensures SearchAccepts(s) <==> MatchesPattern(s)
  {
    if SearchAccepts(s) {
      SearchFindsSplit(s);
    }
    if MatchesPattern(s) {
      var i, j, q :| SplitsAt(s, i, j, q);
      SplitPassesSearch(s, i, j, q);
    }
  }

  /** shutdownRegex.MatchString: the line has the pattern's shape. */
  predicate IsShutdownLine(s: string): (b: bool)
    ensures b <==> MatchesPattern(s)
  {
    SearchIff(s);
    SearchAccepts(s)
  }

  /** Every line built from valid parts is a shutdown line. */
  lemma MarkerLineMatches(a: string, b: string, c: string, d: string)
    requires a != [] && b != [] && c != [] && d != []
    requires '\n' !in a && '\n' !in b && '\n' !in c && AllDigits(d)
    ensures IsShutdownLine(MarkerLine(a, b, c, d))
  {
    var s := MarkerLine(a, b, c, d);
    var i := 1 + |a|;
    var j := i + 2 + |b|;
    var q := j + 3 + |c|;
    assert s[1..i] == a && s[i..i + 2] == "][" && s[i + 2..j] == b;
    assert s[j..j + 3] == "]: " && s[j + 3..q] == c && s[q] == '=';
    assert s[q + 1..|s| - |Suffix|] == d;
    assert s[|s| - |Suffix|..] == Suffix;
    assert SplitsAt(s, i, j, q);
  }

  /** The line an rcon shutdown writes, with the id and client number the
      server prints. */
  lemma ExampleLineMatches()
    ensures IsShutdownLine("[x][y]: 0=123 rcon='shutdown'")
  {
    assert "[x][y]: 0=123 rcon='shutdown'" == MarkerLine("x", "y", "0", "123");
    MarkerLineMatches("x", "y", "0", "123");
  }

  /** Index of the first element satisfying `p`, or None. */
  function FirstWhere<T>(xs: seq<T>, p: T -> bool): (r: Option<nat>)
    ensures r.Some? ==> r.value < |xs| && p(xs[r.value])
    ensures r.Some? ==> forall k :: 0 <= k < r.value ==> !p(xs[k])
    ensures r.None? ==> forall k :: 0 <= k < |xs| ==> !p(xs[k])
  {
    if xs == [] then None
    else if p(xs[0]) then Some(0)
    else match FirstWhere(xs[1..], p)
      case None => None
      case Some(k) => Some(k + 1)
  }

  /** Elements after the first one satisfying `p` cannot move it. */
  lemma {:induction false} FirstWhereAppend<T>(xs: seq<T>, more: seq<T>, p: T -> bool)
    requires FirstWhere(xs, p).Some?
    ensures FirstWhere(xs + more, p) == FirstWhere(xs, p)
  {
    var all := xs + more;
    assert all[0] == xs[0];
    if !p(xs[0]) {
      assert all[1..] == xs[1..] + more;
      FirstWhereAppend(xs[1..], more, p);
    }
  }

  /** Index of the first shutdown line, or None. */
  function FirstMarker(lines: seq<string>): (r: Option<nat>)
    ensures r.Some? ==> r.value < |lines| && IsShutdownLine(lines[r.value])
    ensures r.Some? ==> forall k :: 0 <= k < r.value ==> !IsShutdownLine(lines[k])
    ensures r.None? ==> forall k :: 0 <= k < |lines| ==> !IsShutdownLine(lines[k])
  {
    FirstWhere(lines, IsShutdownLine)
  }

  /** What the scanner sends: ErrShutdown when some line announces a
      shutdown, nil otherwise. */
  function Verdict(lines: seq<string>): (v: Option<Error>)
    ensures v == Some(ErrShutdown) <==> exists k :: 0 <= k < |lines| && IsShutdownLine(lines[k])
    ensures v.None? <==> forall k :: 0 <= k < |lines| ==> !IsShutdownLine(lines[k])
  {
    if FirstMarker(lines).Some? then Some(ErrShutdown) else None
  }

  /** Lines after the first shutdown line cannot change where it is. */
  lemma FirstMatchWins(lines: seq<string>, more: seq<string>)
    requires FirstMarker(lines).Some?
    ensures FirstMarker(lines + more) == FirstMarker(lines)
  {
    FirstWhereAppend(lines, more, IsShutdownLine);
  }

  /** The scanning loop of the analyzeLogs goroutine: reads lines until the
      first shutdown line, returning the verdict and how many lines it read. */
  method ScanForShutdown(lines: seq<string>) returns (verdict: Option<Error>, scanned: nat)
    ensures verdict == Verdict(lines)
    ensures FirstMarker(lines).Some? ==> scanned == FirstMarker(lines).value + 1
    ensures FirstMarker(lines).None? ==> scanned == |lines|
  {
    var i := 0;
    while i < |lines|
      invariant 0 <= i <= |lines|
      invariant forall k :: 0 <= k < i ==> !IsShutdownLine(lines[k])
    {
      if IsShutdownLine(lines[i]) {
        return Some(ErrShutdown), i + 1;
      }
      i := i + 1;
    }
    return None, i;
  }

  /** A buffered Go channel of errors, used by one sender and one receiver,
      the sender running to completion first. */
  class ErrorChannel {
    const capacity: nat
    var buffer: seq<Option<Error>>
    var closed: bool

    /** make(chan error, capacity) */
    constructor (capacity: nat)
      ensures this.capacity == capacity && buffer == [] && !closed
    {
      this.capacity := capacity;
      buffer := [];
      closed := false;
    }

    /** ch <- v; sending on a closed channel panics, and a full buffer would
        block the lone sender forever. */
    method Send(v: Option<Error>)
      requires !closed && |buffer| < capacity
      modifies this
      ensures buffer == old(buffer) + [v] && !closed
    {
      buffer := buffer + [v];
    }

    /** close(ch); closing twice panics. */
    method Close()
      requires !closed
      modifies this
      ensures closed && buffer == old(buffer)
    {
      closed := true;
    }

    /** v := <-ch: the oldest buffered value, or nil once the channel is closed
        and drained; an empty open channel would block forever. */
    method Receive() returns (v: Option<Error>)
      requires buffer != [] || closed
      modifies this
      ensures old(buffer) != [] ==> v == old(buffer)[0] && buffer == old(buffer)[1..]
      ensures old(buffer) == [] ==> v.None? && buffer == []
      ensures closed == old(closed)
    {
      if buffer != [] {
        v := buffer[0];
        buffer := buffer[1..];
      } else {
        v := None;
      }
    }
  }

  /** analyzeLogs as main.go writes it. Nothing closes the pipe's writing
      end but the scanning goroutine's own deferred close, so after the
      server's last line the scan waits for more output forever: without a
      shutdown line the channel stays empty and open. */
  method AnalyzeLogsAsWritten(lines: seq<string>) returns (errC: ErrorChannel)
    ensures fresh(errC) && errC.capacity == 1
    ensures FirstMarker(lines).Some? ==> errC.buffer == [Some(ErrShutdown)] && errC.closed
    ensures FirstMarker(lines).None? ==> errC.buffer == [] && !errC.closed
  {
    errC := new ErrorChannel(1);
    var verdict, _ := ScanForShutdown(lines);
    if verdict.Some? {
      errC.Send(verdict);
      errC.Close();
    }
  }

  /** analyzeLogs with the scan ending at the end of the server's output:
      it leaves exactly one verdict in a fresh one-slot channel, which it
      then closes. */
  method AnalyzeLogs(lines: seq<string>) returns (errC: ErrorChannel)
    ensures fresh(errC)
    ensures errC.capacity == 1 && errC.buffer == [Verdict(lines)] && errC.closed
  {
    errC := new ErrorChannel(1);
    var verdict, _ := ScanForShutdown(lines);
    errC.Send(verdict);
    errC.Close();
  }
}
