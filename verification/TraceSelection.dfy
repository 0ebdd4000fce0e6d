/** Which records the trace reader returns, said in the fields of the records and the lines
    they stand on (scripts/turn-trace.py, `read_records`). */
module TraceSelection {
  import opened LineSplitting
  import opened Options
  import opened TraceCollection
  import opened TraceReader
  import opened TraceRecords

  /** The line is short enough and decodes to the record. */
  predicate Holds(q: Query, line: Line, r: Record) {
    |line| <= 2048 && q.decode(line) == Some(r)
  }

  predicate OnSomeLine(q: Query, lines: seq<Line>, r: Record) {
    exists k :: 0 <= k < |lines| && Holds(q, lines[k], r)
  }

  /** The record belongs to the turn itself. */
  predicate InTurn(q: Query, r: Record) {
    r.stage != "ingress" && r.turn == Some(q.turn)
  }

  /** An ingress record whose request some record of the turn names. */
  predicate IsNamed(records: seq<Record>, r: Record) {
    r.stage == "ingress" && exists s :: s in records && s.stage != "ingress" && s.ingressRequest == Some(r.request)
  }

  lemma OneMoreLine(q: Query, before: seq<Line>, line: Line, r: Record)
    ensures OnSomeLine(q, before + [line], r) <==> OnSomeLine(q, before, r) || Holds(q, line, r)
  {
    assert (before + [line])[|before|] == line;
    assert forall k :: 0 <= k < |before| ==> (before + [line])[k] == before[k];
    if OnSomeLine(q, before, r) {
      var k :| 0 <= k < |before| && Holds(q, before[k], r);
      assert Holds(q, (before + [line])[k], r);
    }
  }

  lemma {:induction false} TurnRecordsAre(q: Query, lines: seq<Line>, r: Record)
    ensures r in TurnRecords(q, lines) <==> OnSomeLine(q, lines, r) && InTurn(q, r)
    ensures r in IngressRecords(q, lines) <==> OnSomeLine(q, lines, r) && r.stage == "ingress"
  {
    if lines != [] {
      var before, line := lines[..|lines| - 1], lines[|lines| - 1];
      TurnRecordsAre(q, before, r);
      assert before + [line] == lines;
      OneMoreLine(q, before, line, r);
    }
  }

  lemma {:induction false} LinkedAre(buffer: seq<Record>, requests: set<string>, r: Record)
    ensures r in Linked(buffer, requests) <==> r in buffer && r.request in requests
  {
    if buffer != [] {
      LinkedAre(buffer[..|buffer| - 1], requests, r);
      assert buffer == buffer[..|buffer| - 1] + [buffer[|buffer| - 1]];
    }
  }

  /** The buffer and the records at any point came from lines of their kind. */
  lemma {:induction false} ReadAre(q: Query, lines: seq<Line>, r: Record)
    ensures r in ReadAll(q, lines).records ==> OnSomeLine(q, lines, r) && InTurn(q, r)
    ensures r in ReadAll(q, lines).ingress ==> OnSomeLine(q, lines, r) && r.stage == "ingress"
  {
    if lines != [] {
      var before, line := lines[..|lines| - 1], lines[|lines| - 1];
      ReadAre(q, before, r);
      assert before + [line] == lines;
      OneMoreLine(q, before, line, r);
      if !ReadAll(q, before).truncated {
        StepAdds(q, ReadAll(q, before), before, line, r);
      }
    }
  }

  lemma StepAdds(q: Query, st: State, before: seq<Line>, line: Line, r: Record)
    ensures r in LineStep(q, st, before, line).records ==> r in st.records || (Holds(q, line, r) && InTurn(q, r))
    ensures r in LineStep(q, st, before, line).ingress ==> r in st.ingress || (Holds(q, line, r) && r.stage == "ingress")
  {
    if q.decode(line).Some? {
      AssignAdds(st.ingress, q.decode(line).value, r);
    }
  }

  lemma {:induction false} AssignAdds(buffer: seq<Record>, x: Record, r: Record)
    ensures r in Assign(buffer, x) ==> r in buffer || r == x
  {
    if buffer != [] && KeyOf(buffer[0]) != KeyOf(x) {
      AssignAdds(buffer[1..], x, r);
    }
  }

  /** Every record that comes back, truncated or not, stands on a short line of the streams; it
      belongs to the turn, or is an ingress record that a returned record of the turn names. */
  lemma ReturnedRecordsBelong(q: Query, lines: seq<Line>, r: Record)
    requires r in Collected(q, lines).records
    ensures OnSomeLine(q, lines, r)
    ensures InTurn(q, r) || IsNamed(Collected(q, lines).records, r)
  {
    var st, records := ReadAll(q, lines), Collected(q, lines).records;
    BuffersStayBounded(q, lines);
    ReadAre(q, lines, r);
    if r !in st.records {
      var requests := LinkedRequests(st.records);
      LinkedAre(st.ingress, requests, r);
      assert r in Linked(st.ingress, requests);
      var s :| s in st.records && s.ingressRequest.Some? && s.ingressRequest.value == r.request;
      ReadAre(q, lines, s);
      assert s in records;
    }
  }

  /** Without truncation every record of the turn on a short line comes back. */
  lemma TurnRecordsComeBack(q: Query, lines: seq<Line>, r: Record)
    requires !Collected(q, lines).truncated && OnSomeLine(q, lines, r) && InTurn(q, r)
    ensures r in Collected(q, lines).records
  {
    BuffersStayBounded(q, lines);
    ReadingIsIdeal(q, lines);
    TurnRecordsAre(q, lines, r);
    FirstHoldsTheSame(TurnRecords(q, lines));
  }

  // ---- ingress records ----

  /** The last ingress record of its request and phase stands on this line. */
  ghost predicate IsLastIngress(q: Query, lines: seq<Line>, k: nat, r: Record) {
    && k < |lines| && Holds(q, lines[k], r) && r.stage == "ingress"
    && forall j, s :: k < j < |lines| && Holds(q, lines[j], s) && s.stage == "ingress" ==>
         s.request != r.request || s.phase != r.phase
  }

  /** The requests and phases that ingress records are about. */
  ghost function IngressPairs(q: Query, lines: seq<Line>): set<(string, string)> {
    set k | 0 <= k < |lines| && HasIngress(q, lines[k]) :: (IngressOn(q, lines[k]).request, IngressOn(q, lines[k]).phase)
  }

  predicate HasIngress(q: Query, line: Line) {
    |line| <= 2048 && q.decode(line).Some? && q.decode(line).value.stage == "ingress"
  }

  function IngressOn(q: Query, line: Line): Record
    requires HasIngress(q, line)
  {
    q.decode(line).value
  }

  function PairOf(k: Key): (string, string) {
    (k.request, k.phase)
  }

  lemma {:induction false} PairsAreKeys(q: Query, lines: seq<Line>)
    ensures IngressPairs(q, lines) == set k | k in Keys(IngressRecords(q, lines)) :: PairOf(k)
  {
    if lines != [] {
      var before, line := lines[..|lines| - 1], lines[|lines| - 1];
      PairsAreKeys(q, before);
      var earlier, now := IngressRecords(q, before), IngressRecords(q, lines);
      if HasIngress(q, line) {
        var r := IngressOn(q, line);
        assert now == earlier + [r];
        assert Keys(now) == Keys(earlier) + [KeyOf(r)];
        PairsGrow(q, before, lines);
        assert IngressPairs(q, lines) == IngressPairs(q, before) + {(r.request, r.phase)};
        assert (set k | k in Keys(now) :: PairOf(k)) == (set k | k in Keys(earlier) :: PairOf(k)) + {PairOf(KeyOf(r))};
      } else {
        assert now == earlier;
        PairsGrow(q, before, lines);
      }
    }
  }

  lemma PairsGrow(q: Query, before: seq<Line>, lines: seq<Line>)
    requires lines != [] && before == lines[..|lines| - 1]
    ensures var line := lines[|lines| - 1];
      IngressPairs(q, lines) ==
      IngressPairs(q, before) + if HasIngress(q, line) then {(IngressOn(q, line).request, IngressOn(q, line).phase)} else {}
  {
    assert forall k :: 0 <= k < |before| ==> lines[k] == before[k];
    var line, n := lines[|lines| - 1], |before|;
    forall p | p in IngressPairs(q, before)
      ensures p in IngressPairs(q, lines)
    {
      var k :| 0 <= k < |before| && HasIngress(q, before[k]) && p == (IngressOn(q, before[k]).request, IngressOn(q, before[k]).phase);
      assert HasIngress(q, lines[k]);
    }
    if HasIngress(q, line) {
      assert HasIngress(q, lines[n]);
    }
  }

  lemma {:induction false} FirstCount(s: seq<Key>)
    ensures |First(s)| == |set k | k in s :: PairOf(k)|
  {
    if s != [] {
      var before, last := s[..|s| - 1], s[|s| - 1];
      assert s == before + [last];
      FirstCount(before);
      FirstHoldsTheSame(before);
      var earlier := set k | k in before :: PairOf(k);
      assert (set k | k in s :: PairOf(k)) == earlier + {PairOf(last)};
      assert PairOf(last) in earlier <==> last in before;
    }
  }

  lemma {:induction false} LastIngressIsLast(q: Query, lines: seq<Line>, k: nat, r: Record)
    requires IsLastIngress(q, lines, k, r)
    ensures KeyOf(r) in Keys(IngressRecords(q, lines)) && Last(IngressRecords(q, lines), KeyOf(r)) == r
  {
    var before, line := lines[..|lines| - 1], lines[|lines| - 1];
    var earlier, now := IngressRecords(q, before), IngressRecords(q, lines);
    if k == |lines| - 1 {
      assert now == earlier + [r] && now[..|earlier|] == earlier;
      assert Keys(now)[|earlier|] == KeyOf(r);
    } else {
      assert IsLastIngress(q, before, k, r);
      LastIngressIsLast(q, before, k, r);
      if HasIngress(q, line) {
        assert Holds(q, lines[|lines| - 1], IngressOn(q, line));
        LastOfMore(earlier, IngressOn(q, line), r);
        assert now == earlier + [IngressOn(q, line)];
      } else {
        assert now == earlier;
      }
    }
  }

  lemma LatestHolds(rs: seq<Record>, k: Key)
    requires k in Keys(rs)
    ensures Last(rs, k) in Latest(rs)
  {
    FirstHoldsTheSame(Keys(rs));
    var i :| 0 <= i < |First(Keys(rs))| && First(Keys(rs))[i] == k;
    assert Latest(rs)[i] == Last(rs, k);
  }

  /** Without truncation, and while requests and phases fit the buffer, the last ingress record
      of a request and phase comes back if a record of the turn names its request. */
  lemma NamedIngressComesBack(q: Query, lines: seq<Line>, k: nat, r: Record, line: nat, s: Record)
    requires !Collected(q, lines).truncated && |IngressPairs(q, lines)| <= 20_000
    requires IsLastIngress(q, lines, k, r)
    requires line < |lines| && Holds(q, lines[line], s) && InTurn(q, s) && s.ingressRequest == Some(r.request)
    ensures r in Collected(q, lines).records
  {
    var ingress, turn := IngressRecords(q, lines), First(TurnRecords(q, lines));
    PairsAreKeys(q, lines);
    FirstCount(Keys(ingress));
    CollectionIsExact(q, lines);
    LastIngressIsLast(q, lines, k, r);
    LatestHolds(ingress, KeyOf(r));
    TurnRecordsAre(q, lines, s);
    FirstHoldsTheSame(TurnRecords(q, lines));
    assert s in turn;
    LinkedAre(Latest(ingress), LinkedRequests(turn), r);
  }

  // ---- counts ----

  ghost function InvalidLines(q: Query, lines: seq<Line>): set<nat> {
    set k: nat | k < |lines| && (|lines[k]| > 2048 || q.decode(lines[k]) == None)
  }

  lemma {:induction false} InvalidAreCounted(q: Query, lines: seq<Line>)
    ensures Invalid(q, lines) == |InvalidLines(q, lines)|
  {
    if lines != [] {
      var before, n := lines[..|lines| - 1], |lines| - 1;
      InvalidAreCounted(q, before);
      assert forall k :: 0 <= k < n ==> lines[k] == before[k];
      var now := if n in InvalidLines(q, lines) then {n as nat} else {};
      assert InvalidLines(q, lines) == InvalidLines(q, before) + now;
      assert n !in InvalidLines(q, before);
    }
  }

  /** Without truncation, every line that is longer than 2048 bytes or does not decode counts
      once; and there are at most a million lines, 128 MiB and 20,000 records. */
  lemma UntruncatedCounts(q: Query, lines: seq<Line>)
    requires !Collected(q, lines).truncated
    ensures Collected(q, lines).invalid == |InvalidLines(q, lines)|
    ensures |lines| <= 1_000_000 && TotalBytes(lines) <= 134_217_728 && |Collected(q, lines).records| <= 20_000
  {
    BuffersStayBounded(q, lines);
    ReadingIsIdeal(q, lines);
    InvalidAreCounted(q, lines);
  }

  /** A line or a byte more than that truncates. */
  lemma LimitsTruncate(q: Query, lines: seq<Line>)
    requires |lines| > 1_000_000 || TotalBytes(lines) > 134_217_728
    ensures Collected(q, lines).truncated
  {
    BuffersStayBounded(q, lines);
    ReadingIsIdeal(q, lines);
  }
}
