/** The fields that closing records leave in a group: which record decides them, and
    when the order of the records shows (scripts/turn-trace.py, `report`). */
module TraceOutcome {
  import opened Options
  import opened TraceRecords
  import opened TraceReport
  import opened Timestamps

  // ---- one field at a time ----

  function EndOf(cs: seq<Record>): Option<Instant> {
    if cs == [] then None else ItemOf(cs).end
  }

  /** What the group holds for one field: `get` reads it from a record that carries it. */
  function Held<T>(cs: seq<Record>, get: Record -> Option<T>, default: T): T {
    if cs == [] then default
    else
      var before, last := cs[..|cs| - 1], cs[|cs| - 1];
      if Closes(last) && Reaches(EndOf(before), last.timestamp) && get(last).Some? then get(last).value
      else Held(before, get, default)
  }

  function Outcome(r: Record): Option<string> {
    r.outcome
  }

  function Carried(v: Option<nat>): Option<Option<nat>> {
    if v.Some? then Some(v) else None
  }

  function Duration(r: Record): Option<Option<nat>> {
    Carried(r.duration)
  }

  function Status(r: Record): Option<Option<nat>> {
    Carried(r.status)
  }

  function ErrorCode(r: Record): Option<Option<nat>> {
    Carried(r.error)
  }

  lemma AbsorbFields(item: Item, r: Record)
    ensures var takes, next := Closes(r) && Reaches(item.end, r.timestamp), Absorb(item, r);
      && next.outcome == (if takes && r.outcome.Some? then r.outcome.value else item.outcome)
      && next.duration == (if takes && r.duration.Some? then r.duration else item.duration)
      && next.status == (if takes && r.status.Some? then r.status else item.status)
      && next.error == (if takes && r.error.Some? then r.error else item.error)
  {
  }

  /** The item of a group holds each field in this way. */
  lemma {:induction false} ItemHolds(cs: seq<Record>)
    requires cs != []
    ensures ItemOf(cs).outcome == Held(cs, Outcome, "unknown")
    ensures ItemOf(cs).duration == Held(cs, Duration, None)
    ensures ItemOf(cs).status == Held(cs, Status, None)
    ensures ItemOf(cs).error == Held(cs, ErrorCode, None)
  {
    var before, last := cs[..|cs| - 1], cs[|cs| - 1];
    if before == [] {
      AbsorbFields(NewItem(last), last);
    } else {
      ItemHolds(before);
      AbsorbFields(ItemOf(before), last);
    }
  }

  // ---- the latest closing records ----

  predicate IsLatest(cs: seq<Record>, r: Record) {
    r in cs && Closes(r) && forall c :: c in cs && Closes(c) ==> Micros(c.timestamp) <= Micros(r.timestamp)
  }

  lemma EndIsLatest(cs: seq<Record>)
    ensures EndOf(cs).None? ==> forall c :: c in cs ==> !Closes(c)
    ensures EndOf(cs).Some? ==> exists c :: IsLatest(cs, c)
    ensures forall r :: IsLatest(cs, r) ==> EndOf(cs) == Some(r.timestamp)
    ensures forall c :: c in cs && Closes(c) && Some(c.timestamp) == EndOf(cs) ==> IsLatest(cs, c)
  {
    if cs != [] {
      GroupTimes(cs);
      if ItemOf(cs).end.Some? {
        var t := ItemOf(cs).end.value;
        var m :| m in cs && Closes(m) && m.timestamp == t;
        assert IsLatest(cs, m);
        forall r | IsLatest(cs, r)
          ensures r.timestamp == t
        {
          BeforeIsEarlier(r.timestamp, t);
        }
      }
    }
  }

  /** A closing record is heeded exactly when it is as late as any before it. */
  lemma HeededRecord(before: seq<Record>, last: Record)
    requires Closes(last)
    ensures Reaches(EndOf(before), last.timestamp) <==> IsLatest(before + [last], last)
  {
    EndIsLatest(before);
    if EndOf(before).Some? {
      var m :| IsLatest(before, m);
      BeforeIsEarlier(last.timestamp, m.timestamp);
      assert m in before + [last];
    }
    assert forall c :: c in before + [last] <==> c in before || c == last;
  }

  lemma HeldSnoc<T>(before: seq<Record>, last: Record, get: Record -> Option<T>, default: T)
    ensures Held(before + [last], get, default) ==
      if Closes(last) && IsLatest(before + [last], last) && get(last).Some? then get(last).value
      else Held(before, get, default)
  {
    assert (before + [last])[..|before|] == before;
    if Closes(last) {
      HeededRecord(before, last);
    }
  }

  lemma LatestBefore(before: seq<Record>, last: Record, r: Record)
    ensures IsLatest(before + [last], r) <==>
      && (IsLatest(before, r) || (r == last && Closes(last) && forall c :: c in before && Closes(c) ==> Micros(c.timestamp) <= Micros(r.timestamp)))
      && (Closes(last) ==> Micros(last.timestamp) <= Micros(r.timestamp))
  {
    assert forall c :: c in before + [last] <==> c in before || c == last;
  }

  // ---- which value is shown ----

  /** Some latest record carries the field, and all that do agree on the value. */
  ghost predicate LatestAgree<T>(cs: seq<Record>, get: Record -> Option<T>, v: T) {
    && (exists r :: IsLatest(cs, r) && get(r).Some?)
    && (forall r :: IsLatest(cs, r) && get(r).Some? ==> get(r).value == v)
  }

  /** Then that value is shown, whatever the other records carry. */
  lemma {:induction false} LatestCarriersDecide<T>(cs: seq<Record>, get: Record -> Option<T>, default: T, v: T)
    requires LatestAgree(cs, get, v)
    ensures Held(cs, get, default) == v
  {
    var before, last := cs[..|cs| - 1], cs[|cs| - 1];
    assert cs == before + [last];
    HeldSnoc(before, last, get, default);
    if !(IsLatest(cs, last) && get(last).Some?) {
      forall r | IsLatest(cs, r) && get(r).Some?
        ensures IsLatest(before, r)
      {
        LatestBefore(before, last, r);
      }
      forall r | IsLatest(before, r) && get(r).Some?
        ensures IsLatest(cs, r)
      {
        var m :| IsLatest(cs, m) && get(m).Some?;
        assert IsLatest(before, m);
        LatestBefore(before, last, r);
        LatestBefore(before, last, m);
      }
      LatestCarriersDecide(before, get, default, v);
    }
  }

  /** Without a closing record that carries anything but the default, the default is shown. */
  ghost predicate OnlyDefault<T>(cs: seq<Record>, get: Record -> Option<T>, default: T) {
    forall c :: c in cs && Closes(c) && get(c).Some? ==> get(c).value == default
  }

  lemma {:induction false} DefaultIsShown<T>(cs: seq<Record>, get: Record -> Option<T>, default: T)
    requires OnlyDefault(cs, get, default)
    ensures Held(cs, get, default) == default
  {
    if cs != [] {
      var before, last := cs[..|cs| - 1], cs[|cs| - 1];
      assert cs == before + [last];
      DefaultIsShown(before, get, default);
    }
  }

  /** Once a latest record that carries nothing was met, the value stays as it is when
      no latest record carries anything. */
  lemma {:induction false} NothingAfterLatest<T>(front: seq<Record>, rest: seq<Record>, m: Record, get: Record -> Option<T>, default: T)
    requires m in front && IsLatest(front + rest, m)
    requires forall r :: IsLatest(front + rest, r) ==> get(r).None?
    ensures Held(front + rest, get, default) == Held(front, get, default)
    decreases rest
  {
    if rest == [] {
      assert front + rest == front;
    } else {
      var init, last := rest[..|rest| - 1], rest[|rest| - 1];
      assert front + rest == (front + init) + [last];
      HeldSnoc(front + init, last, get, default);
      LatestBefore(front + init, last, m);
      forall r | IsLatest(front + init, r)
        ensures get(r).None?
      {
        LatestBefore(front + init, last, r);
        LatestBefore(front + init, last, m);
        assert m in front + init;
        assert IsLatest(front + rest, r);
      }
      assert m in front + init;
      NothingAfterLatest(front, init, m, get, default);
    }
  }

  // ---- when the order does not show ----

  ghost predicate CarriedByLatest<T>(cs: seq<Record>, get: Record -> Option<T>) {
    exists r :: IsLatest(cs, r) && get(r).Some?
  }

  ghost predicate LatestConcur<T>(cs: seq<Record>, get: Record -> Option<T>) {
    forall r, q :: IsLatest(cs, r) && IsLatest(cs, q) && get(r).Some? && get(q).Some? ==> get(r) == get(q)
  }

  /** The latest closing records that carry the field agree on it; if none of them does,
      no closing record carries anything but the default. */
  ghost predicate Settled<T>(cs: seq<Record>, get: Record -> Option<T>, default: T) {
    if CarriedByLatest(cs, get) then LatestConcur(cs, get) else OnlyDefault(cs, get, default)
  }

  /** Every permutation of the contributions shows the same value. */
  ghost predicate OrderFree<T>(cs: seq<Record>, get: Record -> Option<T>, default: T) {
    forall ds: seq<Record> :: multiset(ds) == multiset(cs) ==> Held(ds, get, default) == Held(cs, get, default)
  }

  lemma SameMultisetSameMembers(cs: seq<Record>, ds: seq<Record>)
    requires multiset(ds) == multiset(cs)
    ensures forall r :: r in ds <==> r in cs
    ensures forall r :: IsLatest(ds, r) <==> IsLatest(cs, r)
  {
    forall r | true
      ensures r in ds <==> r in cs
    {
      assert r in ds <==> r in multiset(ds);
      assert r in cs <==> r in multiset(cs);
    }
  }

  lemma SettledValue<T>(cs: seq<Record>, ds: seq<Record>, get: Record -> Option<T>, default: T)
    requires Settled(cs, get, default) && multiset(ds) == multiset(cs)
    ensures Held(ds, get, default) == Held(cs, get, default)
  {
    SameMultisetSameMembers(cs, ds);
    if CarriedByLatest(cs, get) {
      var r :| IsLatest(cs, r) && get(r).Some?;
      assert LatestAgree(cs, get, get(r).value) && LatestAgree(ds, get, get(r).value);
      LatestCarriersDecide(cs, get, default, get(r).value);
      LatestCarriersDecide(ds, get, default, get(r).value);
    } else {
      DefaultIsShown(cs, get, default);
      DefaultIsShown(ds, get, default);
    }
  }

  // ---- when it does ----

  lemma Split(cs: seq<Record>, r: Record) returns (before: seq<Record>, after: seq<Record>)
    requires r in cs
    ensures cs == before + [r] + after
    ensures multiset(before + after + [r]) == multiset(cs) && multiset([r] + (before + after)) == multiset(cs)
  {
    var i :| 0 <= i < |cs| && cs[i] == r;
    before, after := cs[..i], cs[i + 1..];
  }

  /** A latest record that carries the field decides when it comes last. */
  lemma LastCarrierWins<T>(cs: seq<Record>, r: Record, get: Record -> Option<T>, default: T) returns (ds: seq<Record>)
    requires IsLatest(cs, r) && get(r).Some?
    ensures multiset(ds) == multiset(cs) && Held(ds, get, default) == get(r).value
  {
    var before, after := Split(cs, r);
    ds := before + after + [r];
    SameMultisetSameMembers(cs, ds);
    HeldSnoc(before + after, r, get, default);
  }

  /** A latest record without the field hides what is behind it ... */
  lemma LatestFirstHides<T>(cs: seq<Record>, m: Record, get: Record -> Option<T>, default: T) returns (ds: seq<Record>)
    requires IsLatest(cs, m) && !CarriedByLatest(cs, get)
    ensures multiset(ds) == multiset(cs) && Held(ds, get, default) == default
  {
    var before, after := Split(cs, m);
    ds := [m] + (before + after);
    SameMultisetSameMembers(cs, ds);
    NothingAfterLatest([m], before + after, m, get, default);
    assert Held([m], get, default) == Held([], get, default);
  }

  /** ... and keeps what is in front of it. */
  lemma EarlierFirstStays<T>(cs: seq<Record>, m: Record, c: Record, get: Record -> Option<T>, default: T)
    returns (ds: seq<Record>)
    requires IsLatest(cs, m) && !CarriedByLatest(cs, get)
    requires c in cs && Closes(c) && get(c).Some?
    ensures multiset(ds) == multiset(cs) && Held(ds, get, default) == get(c).value
  {
    var before, after := Split(cs, m);
    var rest := before + after;
    assert cs == before + [m] + after && c != m;
    var front, back := Split(rest, c);
    ds := [c, m] + (front + back);
    TwoInFront(c, m, front, back, rest, cs);
    SameMultisetSameMembers(cs, ds);
    NothingAfterLatest([c, m], front + back, m, get, default);
    HeldSnoc([c], m, get, default);
    HeldSnoc([], c, get, default);
    assert [c] + [m] == [c, m] && [] + [c] == [c];
    assert IsLatest([c], c);
  }

  lemma TwoInFront(c: Record, m: Record, front: seq<Record>, back: seq<Record>, rest: seq<Record>, cs: seq<Record>)
    requires multiset([c] + (front + back)) == multiset(rest) && multiset([m] + rest) == multiset(cs)
    ensures multiset([c, m] + (front + back)) == multiset(cs)
  {
    assert multiset([c, m] + (front + back)) == multiset([m]) + multiset([c] + (front + back));
  }

  lemma OrderShows<T>(cs: seq<Record>, get: Record -> Option<T>, default: T) returns (ds: seq<Record>)
    requires !Settled(cs, get, default)
    ensures multiset(ds) == multiset(cs) && Held(ds, get, default) != Held(cs, get, default)
  {
    var es;
    if CarriedByLatest(cs, get) {
      var r, q :| IsLatest(cs, r) && IsLatest(cs, q) && get(r).Some? && get(q).Some? && get(r) != get(q);
      ds := LastCarrierWins(cs, r, get, default);
      es := LastCarrierWins(cs, q, get, default);
    } else {
      var c :| c in cs && Closes(c) && get(c).Some? && get(c).value != default;
      EndIsLatest(cs);
      var m :| IsLatest(cs, m);
      ds := LatestFirstHides(cs, m, get, default);
      es := EarlierFirstStays(cs, m, c, get, default);
    }
    if Held(ds, get, default) == Held(cs, get, default) {
      ds := es;
    }
  }

  /** The value of a field is the same for every order of the contributions if and only
      if it is settled: a condition on the records alone. */
  lemma FieldIsOrderFree<T>(cs: seq<Record>, get: Record -> Option<T>, default: T)
    ensures OrderFree(cs, get, default) <==> Settled(cs, get, default)
  {
    if Settled(cs, get, default) {
      forall ds: seq<Record> | multiset(ds) == multiset(cs)
        ensures Held(ds, get, default) == Held(cs, get, default)
      {
        SettledValue(cs, ds, get, default);
      }
    } else {
      var ds := OrderShows(cs, get, default);
    }
  }

  lemma SameMultisetSameSize(cs: seq<Record>, ds: seq<Record>)
    requires multiset(ds) == multiset(cs)
    ensures |ds| == |cs|
  {
    assert |multiset(ds)| == |ds| && |multiset(cs)| == |cs|;
  }

  lemma OutcomeIsHeld(cs: seq<Record>, ds: seq<Record>)
    requires cs != [] && multiset(ds) == multiset(cs)
    ensures ds != []
    ensures ItemOf(ds).outcome == ItemOf(cs).outcome <==> Held(ds, Outcome, "unknown") == Held(cs, Outcome, "unknown")
  {
    SameMultisetSameSize(cs, ds);
    ItemHolds(cs);
    ItemHolds(ds);
  }

  /** A group shows the same outcome for every order of its contributions exactly when
      its latest closing records that name one agree on it, or none of them names one and
      no closing record names anything but "unknown"; likewise for the other fields. */
  lemma OutcomeIsOrderFree(cs: seq<Record>)
    requires cs != []
    ensures (forall ds :: ds != [] && multiset(ds) == multiset(cs) ==> ItemOf(ds).outcome == ItemOf(cs).outcome) <==>
            Settled(cs, Outcome, "unknown")
  {
    if Settled(cs, Outcome, "unknown") {
      forall ds: seq<Record> | ds != [] && multiset(ds) == multiset(cs)
        ensures ItemOf(ds).outcome == ItemOf(cs).outcome
      {
        SettledValue(cs, ds, Outcome, "unknown");
        OutcomeIsHeld(cs, ds);
      }
    } else {
      var ds := OrderShows(cs, Outcome, "unknown");
      OutcomeIsHeld(cs, ds);
    }
  }

  lemma DurationIsHeld(cs: seq<Record>, ds: seq<Record>)
    requires cs != [] && multiset(ds) == multiset(cs)
    ensures ds != []
    ensures ItemOf(ds).duration == ItemOf(cs).duration <==> Held(ds, Duration, None) == Held(cs, Duration, None)
  {
    SameMultisetSameSize(cs, ds);
    ItemHolds(cs);
    ItemHolds(ds);
  }

  lemma DurationIsOrderFree(cs: seq<Record>)
    requires cs != []
    ensures (forall ds :: ds != [] && multiset(ds) == multiset(cs) ==> ItemOf(ds).duration == ItemOf(cs).duration) <==>
            Settled(cs, Duration, None)
  {
    if Settled(cs, Duration, None) {
      forall ds: seq<Record> | ds != [] && multiset(ds) == multiset(cs)
        ensures ItemOf(ds).duration == ItemOf(cs).duration
      {
        SettledValue(cs, ds, Duration, None);
        DurationIsHeld(cs, ds);
      }
    } else {
      var ds := OrderShows(cs, Duration, None);
      DurationIsHeld(cs, ds);
    }
  }

  lemma StatusIsHeld(cs: seq<Record>, ds: seq<Record>)
    requires cs != [] && multiset(ds) == multiset(cs)
    ensures ds != []
    ensures ItemOf(ds).status == ItemOf(cs).status <==> Held(ds, Status, None) == Held(cs, Status, None)
  {
    SameMultisetSameSize(cs, ds);
    ItemHolds(cs);
    ItemHolds(ds);
  }

  lemma StatusIsOrderFree(cs: seq<Record>)
    requires cs != []
    ensures (forall ds :: ds != [] && multiset(ds) == multiset(cs) ==> ItemOf(ds).status == ItemOf(cs).status) <==>
            Settled(cs, Status, None)
  {
    if Settled(cs, Status, None) {
      forall ds: seq<Record> | ds != [] && multiset(ds) == multiset(cs)
        ensures ItemOf(ds).status == ItemOf(cs).status
      {
        SettledValue(cs, ds, Status, None);
        StatusIsHeld(cs, ds);
      }
    } else {
      var ds := OrderShows(cs, Status, None);
      StatusIsHeld(cs, ds);
    }
  }

  lemma ErrorIsHeld(cs: seq<Record>, ds: seq<Record>)
    requires cs != [] && multiset(ds) == multiset(cs)
    ensures ds != []
    ensures ItemOf(ds).error == ItemOf(cs).error <==> Held(ds, ErrorCode, None) == Held(cs, ErrorCode, None)
  {
    SameMultisetSameSize(cs, ds);
    ItemHolds(cs);
    ItemHolds(ds);
  }

  lemma ErrorIsOrderFree(cs: seq<Record>)
    requires cs != []
    ensures (forall ds :: ds != [] && multiset(ds) == multiset(cs) ==> ItemOf(ds).error == ItemOf(cs).error) <==>
            Settled(cs, ErrorCode, None)
  {
    if Settled(cs, ErrorCode, None) {
      forall ds: seq<Record> | ds != [] && multiset(ds) == multiset(cs)
        ensures ItemOf(ds).error == ItemOf(cs).error
      {
        SettledValue(cs, ds, ErrorCode, None);
        ErrorIsHeld(cs, ds);
      }
    } else {
      var ds := OrderShows(cs, ErrorCode, None);
      ErrorIsHeld(cs, ds);
    }
  }

  // ---- consequences ----

  predicate SameFields(a: Record, b: Record) {
    && (a.duration.Some? <==> b.duration.Some?) && (a.outcome.Some? <==> b.outcome.Some?)
    && (a.status.Some? <==> b.status.Some?) && (a.error.Some? <==> b.error.Some?)
  }

  /** Closing records carry the same fields, at different times. */
  predicate Comparable(cs: seq<Record>) {
    && (forall a, b :: a in cs && b in cs && Closes(a) && Closes(b) ==> SameFields(a, b))
    && (forall i, j :: 0 <= i < j < |cs| && Closes(cs[i]) && Closes(cs[j]) ==> cs[i].timestamp != cs[j].timestamp)
  }

  predicate Shows(item: Item, r: Record) {
    && item.duration == r.duration && item.status == r.status && item.error == r.error
    && item.outcome == if r.outcome.Some? then r.outcome.value else "unknown"
  }

  predicate ShowsNothing(item: Item) {
    item.duration.None? && item.status.None? && item.error.None? && item.outcome == "unknown"
  }

  /** With a single latest closing record the field is the one it carries; when it
      carries none, nobody does, and the default is shown. */
  lemma SingleLatestDecides<T>(cs: seq<Record>, c: Record, get: Record -> Option<T>, default: T)
    requires IsLatest(cs, c) && forall r :: IsLatest(cs, r) ==> r == c
    requires get(c).None? ==> forall r :: r in cs && Closes(r) ==> get(r).None?
    ensures Held(cs, get, default) == if get(c).Some? then get(c).value else default
  {
    if get(c).Some? {
      LatestCarriersDecide(cs, get, default, get(c).value);
    } else {
      DefaultIsShown(cs, get, default);
    }
  }

  lemma OneLatest(cs: seq<Record>, c: Record)
    requires Comparable(cs) && IsLatest(cs, c)
    ensures forall r :: IsLatest(cs, r) ==> r == c
  {
    forall r | IsLatest(cs, r)
      ensures r == c
    {
      BeforeIsEarlier(r.timestamp, c.timestamp);
      var i :| 0 <= i < |cs| && cs[i] == r;
      var j :| 0 <= j < |cs| && cs[j] == c;
    }
  }

  lemma LatestShown(cs: seq<Record>, c: Record)
    requires cs != [] && Comparable(cs) && IsLatest(cs, c)
    ensures Shows(ItemOf(cs), c)
  {
    OneLatest(cs, c);
    ItemHolds(cs);
    forall r | r in cs && Closes(r)
      ensures SameFields(c, r)
    {
    }
    SingleLatestDecides(cs, c, Outcome, "unknown");
    SingleLatestDecides(cs, c, Duration, None);
    SingleLatestDecides(cs, c, Status, None);
    SingleLatestDecides(cs, c, ErrorCode, None);
  }

  lemma NothingShown(cs: seq<Record>)
    requires cs != [] && forall c :: c in cs ==> !Closes(c)
    ensures ShowsNothing(ItemOf(cs))
  {
    ItemHolds(cs);
    DefaultIsShown(cs, Outcome, "unknown");
    DefaultIsShown(cs, Duration, None);
    DefaultIsShown(cs, Status, None);
    DefaultIsShown(cs, ErrorCode, None);
  }

  /** When closing records carry the same fields at different times, the fields shown are
      those of the latest one, and the defaults without one. */
  lemma LatestRecordDecides(cs: seq<Record>)
    requires cs != [] && Comparable(cs)
    ensures ItemOf(cs).end.None? ==> ShowsNothing(ItemOf(cs))
    ensures forall c :: c in cs && Closes(c) && Some(c.timestamp) == ItemOf(cs).end ==> Shows(ItemOf(cs), c)
  {
    EndIsLatest(cs);
    if EndOf(cs).None? {
      NothingShown(cs);
    }
    forall c | c in cs && Closes(c) && Some(c.timestamp) == EndOf(cs)
      ensures Shows(ItemOf(cs), c)
    {
      LatestShown(cs, c);
    }
  }

  lemma HeldByOne<T>(a: Record, get: Record -> Option<T>, default: T)
    requires Closes(a)
    ensures Held([a], get, default) == if get(a).Some? then get(a).value else default
  {
    HeldSnoc([], a, get, default);
    assert [] + [a] == [a] && IsLatest([a], a);
  }

  lemma HeldByTwo<T>(a: Record, b: Record, get: Record -> Option<T>, default: T)
    requires Closes(a) && Closes(b)
    ensures Held([a, b], get, default) ==
      if Micros(a.timestamp) <= Micros(b.timestamp) && get(b).Some? then get(b).value else Held([a], get, default)
  {
    HeldSnoc([a], b, get, default);
    assert [a] + [b] == [a, b];
    LatestBefore([a], b, b);
    assert [a][0] == a;
  }

  /** The condition is needed: an outcome that the latest record lacks is left over from
      an earlier record in one order and missing in the other. */
  lemma MissingFieldsRememberTheOrder(r: Record, t: Instant, u: Instant, w: string)
    requires Closes(r) && Micros(t) < Micros(u) && w != "unknown"
    ensures var a, b := r.(timestamp := t, outcome := Some(w)), r.(timestamp := u, outcome := None);
      !Settled([a, b], Outcome, "unknown") && ItemOf([a, b]).outcome == w && ItemOf([b, a]).outcome == "unknown"
  {
    var a, b := r.(timestamp := t, outcome := Some(w)), r.(timestamp := u, outcome := None);
    TwoOrders(a, b);
  }

  /** At equal times the later line wins. */
  lemma EqualTimesRememberTheOrder(r: Record, v: string, w: string)
    requires Closes(r)
    ensures var a, b := r.(outcome := Some(v)), r.(outcome := Some(w));
      ItemOf([a, b]).outcome == w && ItemOf([b, a]).outcome == v && (Settled([a, b], Outcome, "unknown") <==> v == w)
  {
    var a, b := r.(outcome := Some(v)), r.(outcome := Some(w));
    TwoOrders(a, b);
    if v == w {
      assert a == b && forall c :: c in [a, b] ==> c == a;
      assert [a, b][0] in [a, b] && IsLatest([a, b], a);
    }
  }

  /** The outcome of two closing records. */
  function Shown(a: Record, b: Record): string {
    if Micros(a.timestamp) <= Micros(b.timestamp) && b.outcome.Some? then b.outcome.value
    else if a.outcome.Some? then a.outcome.value
    else "unknown"
  }

  lemma TwoShown(a: Record, b: Record)
    requires Closes(a) && Closes(b)
    ensures ItemOf([a, b]).outcome == Held([a, b], Outcome, "unknown") == Shown(a, b)
  {
    ItemHolds([a, b]);
    HeldByTwo(a, b, Outcome, "unknown");
    HeldByOne(a, Outcome, "unknown");
  }

  lemma TwoOrders(a: Record, b: Record)
    requires Closes(a) && Closes(b)
    ensures ItemOf([a, b]).outcome == Shown(a, b) && ItemOf([b, a]).outcome == Shown(b, a)
    ensures Settled([a, b], Outcome, "unknown") ==> Shown(a, b) == Shown(b, a)
  {
    TwoShown(a, b);
    TwoShown(b, a);
    assert multiset([a, b]) == multiset([b, a]);
    if Settled([a, b], Outcome, "unknown") {
      SettledValue([a, b], [b, a], Outcome, "unknown");
    }
  }
}
