/** What the trace reader collects, said without its buffers: the distinct records of
    the turn in scan order, then the latest ingress record of every linked request
    and phase (scripts/turn-trace.py, `read_records`). */
module TraceCollection {
  import opened LineSplitting
  import opened Options
  import opened TraceReader
  import opened TraceRecords

  // ---- reference definitions ----

  function First<T(==)>(s: seq<T>): seq<T> {
    if s == [] then []
    else
      var rest := First(s[..|s| - 1]);
      if s[|s| - 1] in rest then rest else rest + [s[|s| - 1]]
  }

  function Selected(keep: bool, r: Option<Record>): seq<Record> {
    if keep && r.Some? then [r.value] else []
  }

  function TurnRecords(q: Query, lines: seq<Line>): seq<Record> {
    if lines == [] then []
    else
      var r := Read(q, lines[|lines| - 1]);
      TurnRecords(q, lines[..|lines| - 1]) + Selected(r.Some? && OfTurn(q, r.value), r)
  }

  function IngressRecords(q: Query, lines: seq<Line>): seq<Record> {
    if lines == [] then []
    else
      var r := Read(q, lines[|lines| - 1]);
      IngressRecords(q, lines[..|lines| - 1]) + Selected(r.Some? && IsIngress(r.value), r)
  }

  function Invalid(q: Query, lines: seq<Line>): nat {
    if lines == [] then 0
    else Invalid(q, lines[..|lines| - 1]) + if Read(q, lines[|lines| - 1]).None? then 1 else 0
  }

  predicate Within(lines: seq<Line>) {
    |lines| <= MAX_LINES && TotalBytes(lines) <= MAX_BYTES
  }

  function Keys(rs: seq<Record>): (ks: seq<Key>)
    ensures |ks| == |rs| && forall i :: 0 <= i < |rs| ==> ks[i] == KeyOf(rs[i])
  {
    seq(|rs|, i requires 0 <= i < |rs| => KeyOf(rs[i]))
  }

  function Last(rs: seq<Record>, k: Key): (r: Record)
    requires k in Keys(rs)
    ensures r in rs && KeyOf(r) == k
  {
    if KeyOf(rs[|rs| - 1]) == k then rs[|rs| - 1]
    else
      assert Keys(rs[..|rs| - 1]) == Keys(rs)[..|rs| - 1];
      Last(rs[..|rs| - 1], k)
  }

  /** The last record of every key, keys in the order they first appear. */
  function Latest(rs: seq<Record>): seq<Record> {
    var keys := First(Keys(rs));
    FirstHoldsTheSame(Keys(rs));
    seq(|keys|, i requires 0 <= i < |keys| => assert keys[i] in keys; Last(rs, keys[i]))
  }

  // ---- first occurrences ----

  lemma {:induction false} FirstHoldsTheSame<T>(s: seq<T>)
    ensures forall x :: x in First(s) <==> x in s
  {
    if s != [] {
      FirstHoldsTheSame(s[..|s| - 1]);
      assert s == s[..|s| - 1] + [s[|s| - 1]];
    }
  }

  function Index<T(==)>(s: seq<T>, x: T): (i: nat)
    requires x in s
    ensures i < |s| && s[i] == x && x !in s[..i]
  {
    if s[0] == x then 0 else 1 + Index(s[1..], x)
  }

  lemma OneFirst<T>(s: seq<T>, x: T, i: nat, j: nat)
    requires i < |s| && j < |s| && s[i] == x == s[j] && x !in s[..i] && x !in s[..j]
    ensures i == j
  {
    assert forall k :: 0 <= k < i ==> s[k] == s[..i][k];
    assert forall k :: 0 <= k < j ==> s[k] == s[..j][k];
  }

  lemma IndexInPrefix<T>(s: seq<T>, x: T, n: nat)
    requires n <= |s| && x in s[..n]
    ensures x in s && Index(s, x) == Index(s[..n], x)
  {
    var i := Index(s[..n], x);
    assert s[..n][..i] == s[..i] && s[i] == x;
    OneFirst(s, x, i, Index(s, x));
  }

  lemma {:induction false} FirstMember<T>(s: seq<T>, i: nat)
    requires i < |First(s)|
    ensures First(s)[i] in s
  {
    var before := s[..|s| - 1];
    if i < |First(before)| {
      FirstMember(before, i);
      assert First(s)[i] == First(before)[i];
    } else {
      assert First(s)[i] == s[|s| - 1];
    }
  }

  /** No element twice, and elements stand in the order of their first appearance. */
  lemma {:induction false} FirstKeepsScanOrder<T>(s: seq<T>, i: nat, j: nat)
    requires i < j < |First(s)|
    ensures First(s)[i] in s && First(s)[j] in s && Index(s, First(s)[i]) < Index(s, First(s)[j])
  {
    var before, last := s[..|s| - 1], s[|s| - 1];
    assert s[..|before|] == before;
    FirstMember(s, i);
    FirstMember(s, j);
    FirstMember(before, i);
    IndexInPrefix(s, First(before)[i], |before|);
    if j < |First(before)| {
      FirstKeepsScanOrder(before, i, j);
      FirstMember(before, j);
      IndexInPrefix(s, First(before)[j], |before|);
    } else if Index(s, last) < |before| {
      assert before[Index(s, last)] == last;
      FirstHoldsTheSame(before);
    }
  }

  // ---- one line more ----

  lemma FirstSnoc<T>(s: seq<T>, x: T)
    ensures First(s + [x]) == if x in First(s) then First(s) else First(s) + [x]
  {
    assert (s + [x])[..|s|] == s;
  }

  lemma {:induction false} FirstGrows<T>(s: seq<T>, t: seq<T>)
    ensures First(s) <= First(s + t)
  {
    if t == [] {
      assert s + t == s;
    } else {
      FirstGrows(s, t[..|t| - 1]);
      assert (s + t)[..|s + t| - 1] == s + t[..|t| - 1];
    }
  }

  function Buffer(rs: seq<Record>): seq<Record> {
    if rs == [] then [] else Put(Buffer(rs[..|rs| - 1]), rs[|rs| - 1])
  }

  /** The state the reader should be in when nothing was cut off. */
  function Ideal(q: Query, lines: seq<Line>): State {
    State(First(TurnRecords(q, lines)), Buffer(IngressRecords(q, lines)), Invalid(q, lines), false)
  }

  lemma BufferSnoc(rs: seq<Record>, r: Record)
    ensures Buffer(rs + [r]) == Put(Buffer(rs), r)
  {
    assert (rs + [r])[..|rs|] == rs;
  }

  lemma NothingNew(rs: seq<Record>)
    ensures rs + [] == rs
  {
  }

  /** Within the limits a line moves the reader from one ideal state to the next, or
      there is no room for one more distinct record. */
  lemma IdealStep(q: Query, lines: seq<Line>)
    requires lines != [] && Within(lines)
    ensures var before := lines[..|lines| - 1];
      var next := LineStep(q, Ideal(q, before), before, lines[|lines| - 1]);
      if |First(TurnRecords(q, before))| <= MAX_RECORDS < |First(TurnRecords(q, lines))| then next.truncated
      else next == Ideal(q, lines)
  {
    var before, line := lines[..|lines| - 1], lines[|lines| - 1];
    NothingNew(TurnRecords(q, before));
    NothingNew(IngressRecords(q, before));
    if Read(q, line).Some? {
      FirstSnoc(TurnRecords(q, before), Read(q, line).value);
      BufferSnoc(IngressRecords(q, before), Read(q, line).value);
    }
  }

  /** Truncation while reading means exactly that a limit was passed; without it the
      state is the ideal one. */
  lemma {:induction false} ReadingIsIdeal(q: Query, lines: seq<Line>)
    ensures ReadAll(q, lines).truncated <==> !Within(lines) || |First(TurnRecords(q, lines))| > MAX_RECORDS
    ensures !ReadAll(q, lines).truncated ==> ReadAll(q, lines) == Ideal(q, lines)
  {
    if lines != [] {
      var before, line := lines[..|lines| - 1], lines[|lines| - 1];
      ReadingIsIdeal(q, before);
      MoreLinesMoreRecords(q, before, line);
      assert before + [line] == lines;
      if !ReadAll(q, before).truncated {
        if Within(lines) {
          IdealStep(q, lines);
        } else {
          OverLimit(q, ReadAll(q, before), before, line);
        }
      }
    }
  }

  lemma OverLimit(q: Query, st: State, before: seq<Line>, line: Line)
    requires !Within(before + [line])
    ensures LineStep(q, st, before, line).truncated
  {
    TotalBytesSnoc(before, line);
  }

  lemma MoreLinesMoreRecords(q: Query, before: seq<Line>, line: Line)
    ensures Within(before + [line]) ==> Within(before)
    ensures |First(TurnRecords(q, before))| <= |First(TurnRecords(q, before + [line]))|
  {
    TotalBytesSnoc(before, line);
    assert (before + [line])[..|before|] == before;
    var r := Read(q, line);
    FirstGrows(TurnRecords(q, before), Selected(r.Some? && OfTurn(q, r.value), r));
  }

  lemma TruncatingStepKeeps(q: Query, st: State, before: seq<Line>, line: Line)
    requires !st.truncated && LineStep(q, st, before, line).truncated
    ensures LineStep(q, st, before, line).records == st.records
  {
  }

  /** Whatever was cut off, what was kept is a prefix of the distinct turn records. */
  lemma {:induction false} KeptRecordsAreAPrefix(q: Query, lines: seq<Line>)
    ensures ReadAll(q, lines).records <= First(TurnRecords(q, lines))
  {
    ReadingIsIdeal(q, lines);
    if ReadAll(q, lines).truncated {
      var before, r := lines[..|lines| - 1], Read(q, lines[|lines| - 1]);
      KeptRecordsAreAPrefix(q, before);
      FirstGrows(TurnRecords(q, before), Selected(r.Some? && OfTurn(q, r.value), r));
      if !ReadAll(q, before).truncated {
        TruncatingStepKeeps(q, ReadAll(q, before), before, lines[|lines| - 1]);
      }
    }
  }

  // ---- the ingress buffer ----

  predicate DistinctKeys(rs: seq<Record>) {
    forall i, j :: 0 <= i < j < |rs| ==> KeyOf(rs[i]) != KeyOf(rs[j])
  }

  /** A new key is appended. */
  lemma {:induction false} AssignNew(buffer: seq<Record>, r: Record)
    requires forall i :: 0 <= i < |buffer| ==> KeyOf(buffer[i]) != KeyOf(r)
    ensures Assign(buffer, r) == buffer + [r]
  {
    if buffer != [] {
      AssignNew(buffer[1..], r);
      assert buffer == [buffer[0]] + buffer[1..];
    }
  }

  /** The entry of a known key is replaced where it stands. */
  lemma {:induction false} AssignKnown(buffer: seq<Record>, r: Record, j: nat)
    requires DistinctKeys(buffer) && j < |buffer| && KeyOf(buffer[j]) == KeyOf(r)
    ensures Assign(buffer, r) == buffer[j := r]
  {
    if j > 0 {
      assert KeyOf(buffer[0]) != KeyOf(buffer[j]);
      AssignKnown(buffer[1..], r, j - 1);
      assert buffer[j := r] == [buffer[0]] + buffer[1..][j - 1 := r];
    }
  }

  lemma AssignKeepsDistinct(buffer: seq<Record>, r: Record)
    requires DistinctKeys(buffer)
    ensures DistinctKeys(Assign(buffer, r))
    ensures forall x :: x in Assign(buffer, r) ==> x == r || (x in buffer && KeyOf(x) != KeyOf(r))
  {
    if j :| 0 <= j < |buffer| && KeyOf(buffer[j]) == KeyOf(r) {
      AssignKnown(buffer, r, j);
    } else {
      AssignNew(buffer, r);
    }
  }

  /** Every record is the last one of its key. */
  predicate AreLast(buffer: seq<Record>, rs: seq<Record>) {
    forall x :: x in buffer ==> KeyOf(x) in Keys(rs) && x == Last(rs, KeyOf(x))
  }

  lemma PutMeaning(buffer: seq<Record>, r: Record)
    requires DistinctKeys(buffer) && |buffer| <= MAX_RECORDS
    ensures DistinctKeys(Put(buffer, r)) && |Put(buffer, r)| <= MAX_RECORDS
    ensures forall x :: x in Put(buffer, r) ==> x == r || (x in buffer && KeyOf(x) != KeyOf(r))
  {
    AssignKeepsDistinct(buffer, r);
    assert forall x :: x in Put(buffer, r) ==> x in Assign(buffer, r);
  }

  lemma LastOfMore(before: seq<Record>, r: Record, x: Record)
    requires x == r || (KeyOf(x) != KeyOf(r) && KeyOf(x) in Keys(before) && x == Last(before, KeyOf(x)))
    ensures KeyOf(x) in Keys(before + [r]) && x == Last(before + [r], KeyOf(x))
  {
    assert Keys(before + [r]) == Keys(before) + [KeyOf(r)];
    assert (before + [r])[..|before|] == before;
  }

  /** In every run, evictions included, the buffer holds at most one record of a key,
      and that is the last one read. */
  lemma {:induction false} BufferedIsLast(rs: seq<Record>)
    ensures DistinctKeys(Buffer(rs)) && |Buffer(rs)| <= MAX_RECORDS
    ensures AreLast(Buffer(rs), rs)
  {
    if rs != [] {
      var before, r := rs[..|rs| - 1], rs[|rs| - 1];
      BufferedIsLast(before);
      PutMeaning(Buffer(before), r);
      assert before + [r] == rs;
      forall x | x in Buffer(rs)
        ensures KeyOf(x) in Keys(rs) && x == Last(rs, KeyOf(x))
      {
        LastOfMore(before, r, x);
      }
    }
  }

  /** While the keys fit, nothing is evicted: every key is buffered, in order. */
  lemma {:induction false} NothingEvicted(rs: seq<Record>)
    requires |First(Keys(rs))| <= MAX_RECORDS
    ensures Keys(Buffer(rs)) == First(Keys(rs))
  {
    if rs != [] {
      var before, r := rs[..|rs| - 1], rs[|rs| - 1];
      assert Keys(rs) == Keys(before) + [KeyOf(r)];
      FirstSnoc(Keys(before), KeyOf(r));
      NothingEvicted(before);
      BufferedIsLast(before);
      AssignedKeys(Buffer(before), r);
    }
  }

  lemma AssignedKeys(buffer: seq<Record>, r: Record)
    requires DistinctKeys(buffer)
    ensures Keys(Assign(buffer, r)) == Keys(buffer) + if KeyOf(r) in Keys(buffer) then [] else [KeyOf(r)]
  {
    if j :| 0 <= j < |buffer| && KeyOf(buffer[j]) == KeyOf(r) {
      AssignKnown(buffer, r, j);
      assert Keys(buffer)[j] == KeyOf(r);
    } else {
      AssignNew(buffer, r);
    }
  }

  lemma BufferIsLatest(rs: seq<Record>)
    requires |First(Keys(rs))| <= MAX_RECORDS
    ensures Buffer(rs) == Latest(rs)
  {
    NothingEvicted(rs);
    BufferedIsLast(rs);
    forall i | 0 <= i < |Buffer(rs)|
      ensures Buffer(rs)[i] == Latest(rs)[i]
    {
      assert Buffer(rs)[i] in Buffer(rs) && Keys(Buffer(rs))[i] == First(Keys(rs))[i];
    }
  }

  // ---- the result ----

  /** When nothing is truncated and the ingress keys fit the buffer, the result is the
      turn's records without repetition, then the latest linked ingress records, and
      every other line counts as invalid or foreign. */
  lemma CollectionIsExact(q: Query, lines: seq<Line>)
    requires !Collected(q, lines).truncated && |First(Keys(IngressRecords(q, lines)))| <= MAX_RECORDS
    ensures var turn := First(TurnRecords(q, lines));
      Collected(q, lines) ==
      Collection(turn + Linked(Latest(IngressRecords(q, lines)), LinkedRequests(turn)), Invalid(q, lines), false)
  {
    BuffersStayBounded(q, lines);
    ReadingIsIdeal(q, lines);
    BufferIsLatest(IngressRecords(q, lines));
  }

  /** The truncation flag is exact: it is raised just when the lines, the bytes or the
      records, linked ingress included, exceed their limits. */
  lemma TruncationIsExact(q: Query, lines: seq<Line>)
    requires |First(Keys(IngressRecords(q, lines)))| <= MAX_RECORDS
    ensures var turn := First(TurnRecords(q, lines));
      Collected(q, lines).truncated <==>
      !Within(lines) || |turn| + |Linked(Latest(IngressRecords(q, lines)), LinkedRequests(turn))| > MAX_RECORDS
  {
    BuffersStayBounded(q, lines);
    ReadingIsIdeal(q, lines);
    BufferIsLatest(IngressRecords(q, lines));
  }

  /** However the run ends, no more than MAX_RECORDS records come back. */
  lemma ResultIsBounded(q: Query, lines: seq<Line>)
    ensures |Collected(q, lines).records| <= MAX_RECORDS
  {
    BuffersStayBounded(q, lines);
  }
}
