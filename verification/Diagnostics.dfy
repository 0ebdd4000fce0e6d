/** The start-up diagnostic of the semantic-effect index: when did the current
    streak of faults begin? (backend/src/db.rs,
    `persist_exact_service_semantic_effect_diagnostic` and `clear_…`). */
module Diagnostics {
  import opened Options

  type Time = int

  datatype Diagnostic = Diagnostic(
    active: bool, detectedAt: Time, resolvedAt: Option<Time>, updatedAt: Time, detail: string)

  type Document = Option<Diagnostic>

  predicate IsActive(doc: Document) {
    doc.Some? && doc.value.active
  }

  // ---- the three database updates ----

  /** First half of a persist: an inactive diagnostic gets a new detection time. */
  function ResetDetection(doc: Document, now: Time): Document {
    if doc.Some? && !doc.value.active then Some(doc.value.(detectedAt := now)) else doc
  }

  /** Second half: an upsert that activates and forgets the resolution. */
  function Activate(doc: Document, now: Time, detail: string): Document {
    match doc
    case None => Some(Diagnostic(true, now, None, now, detail))
    case Some(d) => Some(d.(active := true, resolvedAt := None, updatedAt := now, detail := detail))
  }

  function Resolve(doc: Document, now: Time): Document {
    if IsActive(doc) then Some(doc.value.(active := false, resolvedAt := Some(now), updatedAt := now)) else doc
  }

  function PersistOf(doc: Document, now: Time, detail: string): Document {
    Activate(ResetDetection(doc, now), now, detail)
  }

  class StartupDiagnostic {
    var doc: Document

    constructor ()
      ensures doc == None
    {
      doc := None;
    }

    /** The two updates; the process may die between them. */
    method Persist(now: Time, detail: string, dies: bool)
      modifies this
      ensures doc == if dies then ResetDetection(old(doc), now) else PersistOf(old(doc), now, detail)
      ensures !dies ==>
        doc == Some(Diagnostic(true, if old(IsActive(doc)) then old(doc).value.detectedAt else now, None, now, detail))
      ensures dies && old(doc.Some? && !doc.value.active) ==> doc == Some(old(doc).value.(detectedAt := now))
      ensures dies && old(doc.None? || doc.value.active) ==> doc == old(doc)
    {
      if doc.Some? && !doc.value.active {
        doc := Some(doc.value.(detectedAt := now));
      }
      if dies {
        return;
      }
      match doc {
        case None => doc := Some(Diagnostic(true, now, None, now, detail));
        case Some(d) => doc := Some(d.(active := true, resolvedAt := None, updatedAt := now, detail := detail));
      }
    }

    method Clear(now: Time)
      modifies this
      ensures doc == Resolve(old(doc), now)
      ensures old(IsActive(doc)) ==> var d := old(doc).value;
        doc == Some(Diagnostic(false, d.detectedAt, Some(now), now, d.detail))
      ensures !old(IsActive(doc)) ==> doc == old(doc)
    {
      if doc.Some? && doc.value.active {
        doc := Some(doc.value.(active := false, resolvedAt := Some(now), updatedAt := now));
      }
    }
  }

  // ---- runs ----

  datatype Call = Persist(now: Time, detail: string) | DyingPersist(now: Time) | Clear(now: Time)

  function After(calls: seq<Call>): Document
    decreases calls
  {
    if calls == [] then None
    else
      var doc := After(calls[..|calls| - 1]);
      match calls[|calls| - 1]
      case Persist(now, detail) => PersistOf(doc, now, detail)
      case DyingPersist(now) => ResetDetection(doc, now)
      case Clear(now) => Resolve(doc, now)
  }

  /** A completed persist of the streak that is still going on. */
  ghost predicate InStreak(calls: seq<Call>, k: int) {
    0 <= k < |calls| && calls[k].Persist? && forall j :: k < j < |calls| ==> !calls[j].Clear?
  }

  ghost predicate BeginsStreak(calls: seq<Call>, k: int) {
    InStreak(calls, k) && forall j :: 0 <= j < k ==> !InStreak(calls, j)
  }

  /** After any sequence of persists, persists cut in half by a crash, and clears:
      the diagnostic is active exactly during a streak, its detection time is the
      time of the persist that began the streak, and it carries a resolution time
      exactly when it is not active. */
  lemma {:induction false} ClockTracksStreak(calls: seq<Call>)
    ensures var doc := After(calls);
            && (IsActive(doc) <==> exists k :: InStreak(calls, k))
            && (forall k :: BeginsStreak(calls, k) ==> IsActive(doc) && doc.value.detectedAt == calls[k].now)
            && (IsActive(doc) ==> exists k :: BeginsStreak(calls, k))
            && (doc.Some? ==> (doc.value.resolvedAt.None? <==> doc.value.active))
    decreases calls
  {
    if calls != [] {
      var n := |calls| - 1;
      var before := calls[..n];
      ClockTracksStreak(before);
      assert forall k :: 0 <= k < n && !calls[n].Clear? ==> (InStreak(calls, k) <==> InStreak(before, k));
      if calls[n].Clear? {
        assert forall k :: !InStreak(calls, k);
      } else if calls[n].Persist? {
        assert InStreak(calls, n);
        if IsActive(After(before)) {
          var k :| BeginsStreak(before, k);
          assert BeginsStreak(calls, k);
        } else {
          assert BeginsStreak(calls, n);
        }
      } else if IsActive(After(before)) {
        var k :| BeginsStreak(before, k);
        assert BeginsStreak(calls, k);
      }
    }
  }

  /** Not so when two replicas overlap: a persist whose first half met an active
      diagnostic, followed by another replica's clear, activates with the detection
      time of the streak that was already resolved. */
  lemma OverlappingPersistRevivesOldStreak(first: Time, second: Time, cleared: Time, detail: string)
    requires first < second <= cleared
    ensures var open := PersistOf(None, first, detail);
            var halfway := ResetDetection(open, second);
            var after := Activate(Resolve(halfway, cleared), second, detail);
            IsActive(after) && after.value.detectedAt == first < second
  {
  }

  // ---- calls that overlap ----

  /** The single updates of several replicas, in the order the database takes them. Both
      updates of a persist carry the time at which it began. */
  datatype Update =
    | Reset(replica: nat, now: Time)
    | Activation(replica: nat, now: Time, detail: string)
    | Resolution(now: Time)

  function AfterUpdates(us: seq<Update>): Document
    decreases us
  {
    if us == [] then None else Updated(AfterUpdates(us[..|us| - 1]), us[|us| - 1])
  }

  function Updated(doc: Document, u: Update): Document {
    match u
    case Reset(_, now) => ResetDetection(doc, now)
    case Activation(_, now, detail) => Activate(doc, now, detail)
    case Resolution(now) => Resolve(doc, now)
  }

  /** What an update can do to a streak: open one, end one, or write the detection time. */
  datatype Mark = Opening | Ending | Stamp

  predicate Makes(m: Mark, doc: Document, u: Update) {
    match m
    case Opening => u.Activation? && !IsActive(doc)
    case Ending => u.Resolution? && IsActive(doc)
    case Stamp => (u.Reset? && doc.Some? && !IsActive(doc)) || (u.Activation? && doc.None?)
  }

  predicate At(us: seq<Update>, m: Mark, k: int) {
    0 <= k < |us| && Makes(m, AfterUpdates(us[..k]), us[k])
  }

  /** The last update that did so, or -1. */
  function Last(us: seq<Update>, m: Mark): (k: int)
    ensures -1 <= k < |us|
    ensures k >= 0 ==> At(us, m, k)
    ensures forall j :: k < j < |us| ==> !At(us, m, j)
    decreases us
  {
    if us == [] then -1
    else
      var init := us[..|us| - 1];
      SamePrefix(us, m);
      if Makes(m, AfterUpdates(init), us[|us| - 1]) then |us| - 1 else Last(init, m)
  }

  lemma SamePrefix(us: seq<Update>, m: Mark)
    requires us != []
    ensures forall k :: 0 <= k < |us| - 1 ==> At(us, m, k) == At(us[..|us| - 1], m, k)
  {
    forall k | 0 <= k < |us| - 1
      ensures At(us, m, k) == At(us[..|us| - 1], m, k)
    {
      assert us[..|us| - 1][..k] == us[..k];
    }
  }

  predicate ResetWithin(us: seq<Update>, lo: int, hi: int) {
    exists i :: lo < i < hi && 0 <= i < |us| && us[i].Reset?
  }

  lemma ResetWithinPrefix(us: seq<Update>, lo: int, hi: int)
    requires us != [] && hi < |us|
    ensures ResetWithin(us[..|us| - 1], lo, hi) == ResetWithin(us, lo, hi)
    ensures ResetWithin(us, lo, |us|) == (ResetWithin(us, lo, |us| - 1) || (lo < |us| - 1 && us[|us| - 1].Reset?))
  {
    var init := us[..|us| - 1];
    assert forall i :: 0 <= i < |init| ==> init[i] == us[i];
    if ResetWithin(us, lo, hi) {
      var i :| lo < i < hi && 0 <= i < |us| && us[i].Reset?;
      assert init[i].Reset?;
    }
  }

  /** What holds of the marks after any updates: while the diagnostic is inactive, a new
      detection time was written since the last end exactly when a reset came since. */
  predicate Tracks(us: seq<Update>) {
    var doc := AfterUpdates(us);
    var o, e, t := Last(us, Opening), Last(us, Ending), Last(us, Stamp);
    && (doc.None? ==> o == e == t == -1)
    && (doc.Some? ==> t >= 0 && doc.value.detectedAt == us[t].now)
    && (IsActive(doc) ==> e < o && t <= o && (t > e <==> e == -1 || ResetWithin(us, e, o)))
    && (doc.Some? && !IsActive(doc) ==> 0 <= o < e && (t > e <==> ResetWithin(us, e, |us|)))
  }

  lemma {:induction false} MarksTrack(us: seq<Update>)
    ensures Tracks(us)
    decreases us
  {
    if us != [] {
      var init := us[..|us| - 1];
      MarksTrack(init);
      var o, e := Last(init, Opening), Last(init, Ending);
      ResetWithinPrefix(us, e, o);
      ResetWithinPrefix(us, e, |us| - 1);
    }
  }

  /** For all interleavings of resets, activations and resolutions: an active diagnostic
      carries the time of the last update that wrote it, and that update belongs to the
      current streak if and only if a reset, by whichever replica, came between the end of
      the last streak and the activation that opened this one (or no streak ever ended). */
  lemma ClockIsCurrentExactly(us: seq<Update>)
    requires IsActive(AfterUpdates(us))
    ensures var o, e, t := Last(us, Opening), Last(us, Ending), Last(us, Stamp);
            && e < o && 0 <= t <= o
            && AfterUpdates(us).value.detectedAt == us[t].now
            && (t > e <==> e == -1 || ResetWithin(us, e, o))
  {
    MarksTrack(us);
  }

  /** In particular when no streak ended between the two updates of the persist that
      opened this one. */
  lemma UncutPersistIsCurrent(us: seq<Update>, j: nat)
    requires IsActive(AfterUpdates(us)) && j < Last(us, Opening)
    requires us[j].Reset? && us[j].replica == us[Last(us, Opening)].replica
    requires Last(us, Ending) < j
    ensures Last(us, Stamp) > Last(us, Ending)
  {
    ClockIsCurrentExactly(us);
  }

  /** A persist cut in two by the end of a streak revives the old time, unless another
      replica's reset came behind that end: then the time is current although the opening
      persist met an active diagnostic at its reset. */
  lemma CutPersistNeedsAnotherReset(t0: Time, t1: Time, t2: Time, t3: Time, d: string)
    ensures var cut := [Reset(0, t0), Activation(0, t0, d), Reset(1, t1), Resolution(t2), Activation(1, t1, d)];
            IsActive(AfterUpdates(cut)) && AfterUpdates(cut).value.detectedAt == t0
    ensures var saved :=
              [Reset(0, t0), Activation(0, t0, d), Reset(1, t1), Resolution(t2), Reset(2, t3), Activation(1, t1, d)];
            IsActive(AfterUpdates(saved)) && AfterUpdates(saved).value.detectedAt == t3
  {
    var a0: seq<Update> := [];
    OneMore(a0, Reset(0, t0));
    var a1 := a0 + [Reset(0, t0)];
    OneMore(a1, Activation(0, t0, d));
    var a2 := a1 + [Activation(0, t0, d)];
    OneMore(a2, Reset(1, t1));
    var a3 := a2 + [Reset(1, t1)];
    OneMore(a3, Resolution(t2));
    var a4 := a3 + [Resolution(t2)];
    OneMore(a4, Activation(1, t1, d));
    assert a4 + [Activation(1, t1, d)] ==
      [Reset(0, t0), Activation(0, t0, d), Reset(1, t1), Resolution(t2), Activation(1, t1, d)];
    OneMore(a4, Reset(2, t3));
    var a5 := a4 + [Reset(2, t3)];
    OneMore(a5, Activation(1, t1, d));
    assert a5 + [Activation(1, t1, d)] ==
      [Reset(0, t0), Activation(0, t0, d), Reset(1, t1), Resolution(t2), Reset(2, t3), Activation(1, t1, d)];
  }

  lemma OneMore(us: seq<Update>, u: Update)
    ensures AfterUpdates(us + [u]) == Updated(AfterUpdates(us), u)
  {
    assert (us + [u])[..|us|] == us;
  }
}
