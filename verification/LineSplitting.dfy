/** Splitting a byte stream into lines, in full and through a bounded `readline`
    (scripts/turn-trace.py, the reading loop of `read_records`). */
module LineSplitting {
  type Byte = b: int | 0 <= b < 256

  type Line = seq<Byte>

  const NEWLINE: Byte := 10

  /** The first line with its terminator, or all that is left. */
  function FirstLine(s: seq<Byte>): (line: Line)
    ensures line <= s && (s != [] ==> line != [])
  {
    if s == [] then [] else if s[0] == NEWLINE then [NEWLINE] else [s[0]] + FirstLine(s[1..])
  }

  function Lines(s: seq<Byte>): seq<Line> {
    if s == [] then [] else [FirstLine(s)] + Lines(s[|FirstLine(s)|..])
  }

  function AllLines(streams: seq<seq<Byte>>): seq<Line> {
    if streams == [] then [] else AllLines(streams[..|streams| - 1]) + Lines(streams[|streams| - 1])
  }

  function TotalBytes(lines: seq<Line>): nat {
    if lines == [] then 0 else TotalBytes(lines[..|lines| - 1]) + |lines[|lines| - 1]|
  }

  /** What `readline(limit)` returns: bytes up to a terminator, at most `limit` of them. */
  function NextLine(s: seq<Byte>, limit: nat): (line: Line)
    ensures line <= s && |line| <= limit
    decreases s
  {
    if s == [] || limit == 0 then [] else if s[0] == NEWLINE then [NEWLINE] else [s[0]] + NextLine(s[1..], limit - 1)
  }

  predicate Terminated(line: Line) {
    line != [] && line[|line| - 1] == NEWLINE
  }

  function Joined(lines: seq<Line>): seq<Byte> {
    if lines == [] then [] else lines[0] + Joined(lines[1..])
  }

  /** Splitting loses nothing, and only the last line can lack a terminator, which
      occurs nowhere else. */
  lemma {:induction false} LinesPartitionTheStream(s: seq<Byte>)
    ensures Joined(Lines(s)) == s
    ensures forall k :: 0 <= k < |Lines(s)| - 1 ==> Terminated(Lines(s)[k])
    ensures forall k, i :: 0 <= k < |Lines(s)| && 0 <= i < |Lines(s)[k]| - 1 ==> Lines(s)[k][i] != NEWLINE
    decreases |s|
  {
    if s != [] {
      var line := FirstLine(s);
      FirstLineShape(s);
      LinesPartitionTheStream(s[|line|..]);
      assert Lines(s)[1..] == Lines(s[|line|..]);
      assert s == line + s[|line|..];
    }
  }

  lemma {:induction false} FirstLineShape(s: seq<Byte>)
    requires s != []
    ensures forall i :: 0 <= i < |FirstLine(s)| - 1 ==> FirstLine(s)[i] != NEWLINE
    ensures FirstLine(s) != s ==> Terminated(FirstLine(s))
  {
    if s[0] != NEWLINE && s[1..] != [] {
      FirstLineShape(s[1..]);
    }
  }

  /** What is still to be read of a line after a chunk of it. */
  function Tail(chunk: Line, rest: seq<Byte>): Line {
    if Terminated(chunk) then [] else FirstLine(rest)
  }

  function Min(a: nat, b: nat): nat {
    if a < b then a else b
  }

  lemma {:induction false} ChunkIsPrefix(s: seq<Byte>, limit: nat)
    ensures NextLine(s, limit) == FirstLine(s)[..Min(limit, |FirstLine(s)|)]
    decreases s
  {
    if s != [] && limit > 0 && s[0] != NEWLINE {
      ChunkIsPrefix(s[1..], limit - 1);
      assert FirstLine(s) == [s[0]] + FirstLine(s[1..]);
    }
  }

  lemma {:induction false} LineFromInside(s: seq<Byte>, n: nat)
    requires n < |FirstLine(s)|
    ensures FirstLine(s[n..]) == FirstLine(s)[n..]
  {
    if n > 0 {
      LineFromInside(s[1..], n - 1);
      assert s[n..] == s[1..][n - 1..];
    } else {
      assert s[n..] == s;
    }
  }

  /** A bounded read returns the whole first line, or exactly `limit` bytes of it. */
  lemma ChunkOfLine(s: seq<Byte>, limit: nat)
    requires limit > 0 && s != []
    ensures NextLine(s, limit) != []
    ensures |NextLine(s, limit)| < limit ==> NextLine(s, limit) == FirstLine(s)
    ensures FirstLine(s) == NextLine(s, limit) + Tail(NextLine(s, limit), s[|NextLine(s, limit)|..])
  {
    var chunk, line := NextLine(s, limit), FirstLine(s);
    ChunkIsPrefix(s, limit);
    FirstLineShape(s);
    if |chunk| < |line| {
      LineFromInside(s, |chunk|);
      assert chunk[|chunk| - 1] == line[|chunk| - 1];
      assert !Terminated(chunk);
    } else {
      assert chunk == line && (Terminated(chunk) || s[|chunk|..] == []);
    }
  }

  lemma LinesHead(s: seq<Byte>, line: Line)
    requires s != [] && line == FirstLine(s)
    ensures Lines(s) == [line] + Lines(s[|line|..])
  {
  }

  lemma TotalBytesSnoc(lines: seq<Line>, line: Line)
    ensures TotalBytes(lines + [line]) == TotalBytes(lines) + |line|
  {
    assert (lines + [line])[..|lines|] == lines;
  }

  /** Skip the rest of an over-long line in bounded reads, stopping once the byte
      budget is exceeded. */
  method Drain(chunk: Line, unread: seq<Byte>, count: nat, limit: nat, budget: nat)
    returns (rest: seq<Byte>, bytes: nat, over: bool)
    requires chunk != [] && limit > 0 && count <= budget
    ensures over <==> count + |Tail(chunk, unread)| > budget
    ensures !over ==> rest == unread[|Tail(chunk, unread)|..] && bytes == count + |Tail(chunk, unread)|
  {
    var line := chunk;
    rest, bytes, over := unread, count, false;
    while line != [] && !Terminated(line)
      invariant !over && bytes <= budget && |rest| <= |unread| && rest == unread[|unread| - |rest|..]
      invariant bytes - count == |unread| - |rest|
      invariant bytes + (if line != [] then |Tail(line, rest)| else 0) == count + |Tail(chunk, unread)|
      decreases |rest|, |line|
    {
      ghost var before := rest;
      line := NextLine(rest, limit);
      if before != [] {
        ChunkOfLine(before, limit);
      }
      rest := rest[|line|..];
      bytes := bytes + |line|;
      if bytes > budget {
        over := true;
        break;
      }
    }
  }
}
