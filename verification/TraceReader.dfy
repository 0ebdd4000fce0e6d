/** Collecting the records of one turn from exported log streams
    (scripts/turn-trace.py, `read_records`). */
module TraceReader {
  import opened LineSplitting
  import opened Options
  import opened TraceRecords

  const MAX_LINE: nat := 2048
  const MAX_RECORDS: nat := 20_000
  const MAX_LINES: nat := 1_000_000
  const MAX_BYTES: nat := 128 * 1024 * 1024

  /** The turn asked for, and the decoder: JSON parsing followed by `clean_record`. */
  datatype Query = Query(turn: string, decode: Line -> Option<Record>)

  datatype State = State(records: seq<Record>, ingress: seq<Record>, invalid: nat, truncated: bool)

  datatype Key = Key(request: string, phase: string)

  predicate IsIngress(r: Record) {
    r.stage == "ingress"
  }

  predicate OfTurn(q: Query, r: Record) {
    !IsIngress(r) && r.turn == Some(q.turn)
  }

  function KeyOf(r: Record): Key {
    Key(r.request, r.phase)
  }

  /** The record on a line; none when the line is too long or not a record. */
  function Read(q: Query, line: Line): Option<Record> {
    if |line| > MAX_LINE then None else q.decode(line)
  }

  // ---- the buffer of ingress records ----

  /** Assigning to a key of an ordered dictionary: in place, or at the end. */
  function Assign(buffer: seq<Record>, r: Record): (s: seq<Record>)
    ensures |buffer| <= |s| <= |buffer| + 1
  {
    if buffer == [] then [r]
    else if KeyOf(buffer[0]) == KeyOf(r) then [r] + buffer[1..]
    else [buffer[0]] + Assign(buffer[1..], r)
  }

  /** Assign, then drop the oldest entry when there are too many. */
  function Put(buffer: seq<Record>, r: Record): seq<Record> {
    var grown := Assign(buffer, r);
    if |grown| > MAX_RECORDS then grown[1..] else grown
  }

  // ---- one line ----

  function TakeRecord(q: Query, st: State, r: Record): State {
    if IsIngress(r) then st.(ingress := Put(st.ingress, r))
    else if !OfTurn(q, r) || r in st.records then st
    else if |st.records| == MAX_RECORDS then st.(truncated := true)
    else st.(records := st.records + [r])
  }

  function TakeShort(q: Query, st: State, line: Line): State {
    match q.decode(line)
    case None => st.(invalid := st.invalid + 1)
    case Some(r) => TakeRecord(q, st, r)
  }

  /** The effect of a line after the lines `before`; of a line over the length limit
      the first chunk alone decides whether it still counts as invalid. */
  function LineStep(q: Query, st: State, before: seq<Line>, line: Line): State {
    var chunk := Min(|line|, MAX_LINE + 1);
    if |before| + 1 > MAX_LINES || TotalBytes(before) + chunk > MAX_BYTES then st.(truncated := true)
    else if |line| > MAX_LINE then
      st.(invalid := st.invalid + 1, truncated := TotalBytes(before) + |line| > MAX_BYTES)
    else TakeShort(q, st, line)
  }

  function ReadAll(q: Query, lines: seq<Line>): State {
    if lines == [] then State([], [], 0, false)
    else
      var before := lines[..|lines| - 1];
      var st := ReadAll(q, before);
      if st.truncated then st else LineStep(q, st, before, lines[|lines| - 1])
  }

  // ---- linking ingress records to the turn ----

  function LinkedRequests(records: seq<Record>): set<string> {
    set r <- records | r.ingressRequest.Some? :: r.ingressRequest.value
  }

  function Linked(buffer: seq<Record>, requests: set<string>): seq<Record> {
    if buffer == [] then []
    else
      var rest := Linked(buffer[..|buffer| - 1], requests);
      var last := buffer[|buffer| - 1];
      if last.request in requests then rest + [last] else rest
  }

  datatype Collection = Collection(records: seq<Record>, invalid: nat, truncated: bool)

  /** Linked ingress records follow the records of the turn while there is room. */
  function Finish(st: State): Collection
    requires |st.records| <= MAX_RECORDS
  {
    var linked := Linked(st.ingress, LinkedRequests(st.records));
    var room := MAX_RECORDS - |st.records|;
    Collection(st.records + linked[..Min(room, |linked|)], st.invalid, st.truncated || |linked| > room)
  }

  // ---- bounds ----

  /** Neither list ever exceeds its cap. */
  lemma {:induction false} BuffersStayBounded(q: Query, lines: seq<Line>)
    ensures |ReadAll(q, lines).records| <= MAX_RECORDS
    ensures |ReadAll(q, lines).ingress| <= MAX_RECORDS
  {
    if lines != [] {
      BuffersStayBounded(q, lines[..|lines| - 1]);
    }
  }

  lemma {:induction false} TruncatedStays(q: Query, done: seq<Line>, more: seq<Line>)
    requires ReadAll(q, done).truncated
    ensures ReadAll(q, done + more) == ReadAll(q, done)
  {
    if more == [] {
      assert done + more == done;
    } else {
      TruncatedStays(q, done, more[..|more| - 1]);
      assert (done + more)[..|done + more| - 1] == done + more[..|more| - 1];
    }
  }

  lemma ReadAllSnoc(q: Query, done: seq<Line>, line: Line)
    requires !ReadAll(q, done).truncated
    ensures ReadAll(q, done + [line]) == LineStep(q, ReadAll(q, done), done, line)
  {
    assert (done + [line])[..|done|] == done;
  }

  function Collected(q: Query, lines: seq<Line>): Collection {
    BuffersStayBounded(q, lines);
    Finish(ReadAll(q, lines))
  }

  // ---- the reader ----

  /** The branches for a line within the length limit. */
  method TakeLine(q: Query, line: Line, st0: State, seen0: set<Record>) returns (st: State, seen: set<Record>)
    requires |line| <= MAX_LINE && !st0.truncated && seen0 == set r <- st0.records
    ensures st == TakeShort(q, st0, line)
    ensures seen == set r <- st.records
  {
    st, seen := st0, seen0;
    var record := q.decode(line);
    if record.None? {
      st := st.(invalid := st.invalid + 1);
      return;
    }
    var r := record.value;
    if IsIngress(r) {
      st := st.(ingress := Put(st.ingress, r));
    } else if OfTurn(q, r) && r !in seen {
      if |st.records| == MAX_RECORDS {
        st := st.(truncated := true);
        return;
      }
      seen := seen + {r};
      st := st.(records := st.records + [r]);
    }
  }

  /** What the bounded read says about the whole line. */
  lemma FirstChunk(source: seq<Byte>)
    requires source != []
    ensures var chunk, line := NextLine(source, MAX_LINE + 1), FirstLine(source);
      && chunk != [] && |chunk| == Min(|line|, MAX_LINE + 1) && (|line| <= MAX_LINE ==> chunk == line)
      && |chunk| + |Tail(chunk, source[|chunk|..])| == |line|
      && (|line| > MAX_LINE ==> source[|chunk|..][|Tail(chunk, source[|chunk|..])|..] == source[|line|..])
  {
    ChunkOfLine(source, MAX_LINE + 1);
  }

  /** One turn of the reading loop: a bounded read, the limits, the rest of an
      over-long line, or the record. */
  method ReadLine(q: Query, source: seq<Byte>, st0: State, seen0: set<Record>, scanned0: nat, bytes0: nat, ghost before: seq<Line>)
    returns (rest: seq<Byte>, st: State, seen: set<Record>, scanned: nat, bytes: nat)
    requires source != [] && !st0.truncated && seen0 == set r <- st0.records
    requires scanned0 == |before| && bytes0 == TotalBytes(before) <= MAX_BYTES
    ensures st == LineStep(q, st0, before, FirstLine(source))
    ensures seen == set r <- st.records
    ensures !st.truncated ==> rest == source[|FirstLine(source)|..] && scanned == |before| + 1
    ensures !st.truncated ==> bytes == bytes0 + |FirstLine(source)| <= MAX_BYTES
  {
    st, seen := st0, seen0;
    var line := NextLine(source, MAX_LINE + 1);
    FirstChunk(source);
    rest := source[|line|..];
    bytes := bytes0 + |line|;
    scanned := scanned0 + 1;
    if scanned > MAX_LINES || bytes > MAX_BYTES {
      st := st.(truncated := true);
      return;
    }
    if |line| > MAX_LINE {
      var over;
      rest, bytes, over := Drain(line, rest, bytes, MAX_LINE + 1, MAX_BYTES);
      st := st.(invalid := st.invalid + 1, truncated := over);
      return;
    }
    st, seen := TakeLine(q, line, st, seen);
  }

  /** The inner loop, over one stream; `done` are the lines read before it. */
  method ReadStream(q: Query, source: seq<Byte>, st0: State, seen0: set<Record>, scanned0: nat, bytes0: nat, ghost done: seq<Line>)
    returns (st: State, seen: set<Record>, scanned: nat, bytes: nat)
    requires st0 == ReadAll(q, done) && !st0.truncated && seen0 == set r <- st0.records
    requires scanned0 == |done| && bytes0 == TotalBytes(done) <= MAX_BYTES
    ensures st == ReadAll(q, done + Lines(source)) && seen == set r <- st.records
    ensures !st.truncated ==> scanned == |done + Lines(source)|
    ensures !st.truncated ==> bytes == TotalBytes(done + Lines(source)) <= MAX_BYTES
  {
    st, seen, scanned, bytes := st0, seen0, scanned0, bytes0;
    var rest := source;
    ghost var read := done;
    while rest != []
      invariant read + Lines(rest) == done + Lines(source)
      invariant st == ReadAll(q, read) && !st.truncated && seen == set r <- st.records
      invariant scanned == |read| && bytes == TotalBytes(read) <= MAX_BYTES
      decreases |rest|
    {
      ghost var line, later := FirstLine(rest), rest[|FirstLine(rest)|..];
      LinesHead(rest, line);
      assert read + Lines(rest) == (read + [line]) + Lines(later);
      ReadAllSnoc(q, read, line);
      TotalBytesSnoc(read, line);
      rest, st, seen, scanned, bytes := ReadLine(q, rest, st, seen, scanned, bytes, read);
      read := read + [line];
      if st.truncated {
        TruncatedStays(q, read, Lines(later));
        return;
      }
    }
    assert Lines(rest) == [] && read + Lines(rest) == read;
  }

  lemma StoppingEarlyIsFinal(q: Query, streams: seq<seq<Byte>>, k: nat)
    requires k <= |streams| && (k == |streams| || ReadAll(q, AllLines(streams[..k])).truncated)
    ensures ReadAll(q, AllLines(streams[..k])) == ReadAll(q, AllLines(streams))
  {
    AllLinesExtends(streams, k);
    var done, all := AllLines(streams[..k]), AllLines(streams);
    if k < |streams| {
      TruncatedStays(q, done, all[|done|..]);
      assert done + all[|done|..] == all;
    }
  }

  /** The whole reader agrees with plain line splitting of the streams in turn: no
      chunk boundary shows, and an over-long line is one line. */
  method ReadRecords(q: Query, streams: seq<seq<Byte>>) returns (result: Collection)
    ensures result == Collected(q, AllLines(streams))
  {
    var st, seen, scanned, bytes := State([], [], 0, false), {}, 0, 0;
    var k := 0;
    while k < |streams| && !st.truncated
      invariant k <= |streams|
      invariant st == ReadAll(q, AllLines(streams[..k])) && seen == set r <- st.records
      invariant !st.truncated ==> scanned == |AllLines(streams[..k])|
      invariant !st.truncated ==> bytes == TotalBytes(AllLines(streams[..k])) <= MAX_BYTES
    {
      AllLinesStep(streams, k);
      st, seen, scanned, bytes := ReadStream(q, streams[k], st, seen, scanned, bytes, AllLines(streams[..k]));
      k := k + 1;
    }
    StoppingEarlyIsFinal(q, streams, k);
    BuffersStayBounded(q, AllLines(streams));
    result := LinkIngress(st);
  }

  /** The closing loop over the buffered ingress records. */
  method LinkIngress(st: State) returns (result: Collection)
    requires |st.records| <= MAX_RECORDS
    ensures result == Finish(st)
  {
    var requests := LinkedRequests(st.records);
    var records, truncated := st.records, st.truncated;
    for i := 0 to |st.ingress|
      invariant |Linked(st.ingress[..i], requests)| <= MAX_RECORDS - |st.records|
      invariant records == st.records + Linked(st.ingress[..i], requests) && truncated == st.truncated
    {
      LinkedStep(st.ingress, i, requests);
      if st.ingress[i].request in requests {
        if |records| == MAX_RECORDS {
          truncated := true;
          LinkedExtends(st.ingress, i + 1, requests);
          return Collection(records, st.invalid, truncated);
        }
        records := records + [st.ingress[i]];
      }
    }
    assert st.ingress[..|st.ingress|] == st.ingress;
    result := Collection(records, st.invalid, truncated);
  }

  lemma LinkedStep(buffer: seq<Record>, i: nat, requests: set<string>)
    requires i < |buffer|
    ensures Linked(buffer[..i + 1], requests) ==
      Linked(buffer[..i], requests) + if buffer[i].request in requests then [buffer[i]] else []
  {
    assert buffer[..i + 1][..i] == buffer[..i];
  }

  lemma {:induction false} LinkedExtends(buffer: seq<Record>, i: nat, requests: set<string>)
    requires i <= |buffer|
    ensures Linked(buffer[..i], requests) <= Linked(buffer, requests)
    decreases |buffer| - i
  {
    if i == |buffer| {
      assert buffer[..i] == buffer;
    } else {
      LinkedStep(buffer, i, requests);
      LinkedExtends(buffer, i + 1, requests);
    }
  }

  lemma AllLinesStep(streams: seq<seq<Byte>>, k: nat)
    requires k < |streams|
    ensures AllLines(streams[..k + 1]) == AllLines(streams[..k]) + Lines(streams[k])
  {
    assert streams[..k + 1][..k] == streams[..k];
  }

  lemma {:induction false} AllLinesExtends(streams: seq<seq<Byte>>, k: nat)
    requires k <= |streams|
    ensures AllLines(streams[..k]) <= AllLines(streams)
    ensures k == |streams| ==> AllLines(streams[..k]) == AllLines(streams)
    decreases |streams| - k
  {
    if k == |streams| {
      assert streams[..k] == streams;
    } else {
      AllLinesStep(streams, k);
      AllLinesExtends(streams, k + 1);
    }
  }
}
