/** The mandatory unique index over exact-service approvals, checked and built at
    every boot while approvals keep being written (backend/src/db.rs,
    `ensure_exact_service_semantic_effect_index`). */
module SemanticIndex {
  import opened Options
  import opened Diagnostics

  type Id = nat

  /** The five indexed fields. */
  datatype Identity = Identity(
    requesterType: string, requesterId: string, actor: Option<Id>, endpoint: Option<Id>, effectKey: string)

  /** Rows without an effect key are outside the partial index. */
  type Rows = map<Id, Option<Identity>>

  datatype NamedIndex = Absent | Mismatched | Exact

  ghost predicate Distinct(rows: Rows) {
    forall i, j :: i in rows && j in rows && i != j && rows[i].Some? ==> rows[i] != rows[j]
  }

  // ---- preflight and build ----

  function GroupOf(rows: Rows, identity: Identity): set<Id> {
    set i | i in rows && rows[i] == Some(identity)
  }

  /** The preflight groups the keyed rows and keeps groups of more than one. */
  function DuplicateGroups(rows: Rows): set<Identity> {
    set i | i in rows && InBigGroup(rows, i) :: rows[i].value
  }

  predicate InBigGroup(rows: Rows, i: Id)
    requires i in rows
    ensures InBigGroup(rows, i) ==> rows[i].Some?
  {
    rows[i].Some? && |GroupOf(rows, rows[i].value)| > 1
  }

  lemma {:induction false} TwoMembers(s: set<Id>, i: Id)
    requires i in s
    ensures |s| > 1 <==> exists j :: j in s && j != i
  {
    assert s == {i} + (s - {i});
    if |s| > 1 {
      assert s - {i} != {};
      var j :| j in s - {i};
    }
  }

  lemma RepeatedRow(rows: Rows, i: Id)
    requires i in rows
    ensures InBigGroup(rows, i) <==> rows[i].Some? && exists j :: j in rows && j != i && rows[j] == rows[i]
  {
    if rows[i].Some? {
      var group := GroupOf(rows, rows[i].value);
      TwoMembers(group, i);
      assert forall j :: j in group <==> j in rows && rows[j] == rows[i];
    }
  }

  /** The preflight is clean exactly when no two keyed rows share an identity. */
  lemma NoDuplicateGroups(rows: Rows)
    ensures DuplicateGroups(rows) == {} <==> Distinct(rows)
  {
    forall i | i in rows
      ensures InBigGroup(rows, i) <==> rows[i].Some? && exists j :: j in rows && j != i && rows[j] == rows[i]
      ensures InBigGroup(rows, i) ==> rows[i].value in DuplicateGroups(rows)
    {
      RepeatedRow(rows, i);
    }
  }

  /** An index build inserts key after key and fails on the first repeated one. */
  method BuildIndex(rows: Rows) returns (built: bool)
    ensures built <==> Distinct(rows)
  {
    var keys: set<Identity> := {};
    var rest := rows.Keys;
    while rest != {}
      invariant rest <= rows.Keys
      invariant forall k :: k in keys <==> exists i :: i in rows && i !in rest && rows[i] == Some(k)
      invariant forall i, j :: i in rows && j in rows && i !in rest && j !in rest && i != j && rows[i].Some? ==>
                  rows[i] != rows[j]
    {
      var i :| i in rest;
      if rows[i].Some? {
        if rows[i].value in keys {
          return false;
        }
        keys := keys + {rows[i].value};
      }
      rest := rest - {i};
    }
    built := true;
  }

  // ---- approval writes ----

  /** A write inserts, replaces or (with None) deletes a row; the exact index refuses
      it when it would repeat an identity. `refused` stands for every other reason. */
  datatype ApprovalWrite = ApprovalWrite(id: Id, row: Option<Option<Identity>>, refused: bool)

  function Written(rows: Rows, w: ApprovalWrite): Rows {
    match w.row
    case None => rows - {w.id}
    case Some(row) => rows[w.id := row]
  }

  predicate Repeats(rows: Rows, w: ApprovalWrite) {
    w.row.Some? && w.row.value.Some? && exists i :: i in rows && i != w.id && rows[i] == w.row.value
  }

  function AfterWrite(rows: Rows, index: NamedIndex, w: ApprovalWrite): Rows {
    if w.refused || (index == Exact && Repeats(rows, w)) then rows else Written(rows, w)
  }

  /** What a write does to every row: nothing to the others; its own is deleted or replaced,
      unless the write is refused, by the exact index exactly when another row has the five
      fields already. */
  lemma WriteExactly(rows: Rows, index: NamedIndex, w: ApprovalWrite)
    ensures var after := AfterWrite(rows, index, w);
      && (forall i :: i != w.id ==> (i in after <==> i in rows) && (i in rows ==> after[i] == rows[i]))
      && (w.refused || (index == Exact && IsTaken(rows, w)) ==> after == rows)
      && (!w.refused && (index != Exact || !IsTaken(rows, w)) ==>
            && (w.row == None ==> w.id !in after)
            && (w.row != None ==> w.id in after && after[w.id] == w.row.value))
  {
  }

  ghost predicate IsTaken(rows: Rows, w: ApprovalWrite) {
    w.row.Some? && w.row.value.Some? && exists i :: i in rows && i != w.id && rows[i].Some? && HasFields(rows[i].value, w.row.value.value)
  }

  predicate HasFields(a: Identity, b: Identity) {
    && a.requesterType == b.requesterType && a.requesterId == b.requesterId
    && a.actor == b.actor && a.endpoint == b.endpoint && a.effectKey == b.effectKey
  }

  /** The collection, as one boot works on it. */
  class Approvals {
    var rows: Rows
    var index: NamedIndex
    var diagnostic: StartupDiagnostic

    ghost predicate Valid()
      reads this
    {
      index == Exact ==> Distinct(rows)
    }

    constructor (rows: Rows, index: NamedIndex)
      requires index == Exact ==> Distinct(rows)
      ensures Valid() && this.rows == rows && this.index == index && fresh(diagnostic)
    {
      this.rows, this.index := rows, index;
      diagnostic := new StartupDiagnostic();
    }

    /** Approval writes of other clients while the boot waits. */
    method Others(writes: seq<ApprovalWrite>)
      requires Valid()
      modifies this`rows
      ensures Valid()
      ensures writes == [] ==> rows == old(rows)
    {
      for k := 0 to |writes|
        invariant Valid()
        invariant writes == [] ==> rows == old(rows)
      {
        if index == Exact {
          WriteKeepsDistinct(rows, writes[k]);
        }
        rows := AfterWrite(rows, index, writes[k]);
      }
    }

    /** List, preflight, drop, build; other clients write in between. The call
        always succeeds, the diagnostic tells whether the exact index is there
        afterwards, an exact index stays, and without racing writes the index is
        there exactly when the rows had no duplicates. */
    method EnsureExactServiceIndex(now: Time, race: seq<seq<ApprovalWrite>>)
      requires Valid() && |race| == 3
      modifies this`rows, this`index, diagnostic
      ensures Valid()
      ensures IsActive(diagnostic.doc) <==> index != Exact
      ensures old(index) == Exact ==> index == Exact && rows == old(rows)
      ensures index == Exact || index == Absent || index == old(index)
      ensures race == [[], [], []] ==> rows == old(rows) && (index == Exact <==> Distinct(rows))
    {
      var named := index != Absent;
      if index == Exact {
        diagnostic.Clear(now);
        return;
      }
      Others(race[0]);
      NoDuplicateGroups(rows);
      if DuplicateGroups(rows) != {} {
        diagnostic.Persist(now, "duplicate groups", false);
        return;
      }
      Others(race[1]);
      if named {
        index := Absent;
      }
      Others(race[2]);
      var built := BuildIndex(rows);
      if built {
        index := Exact;
        diagnostic.Clear(now);
      } else {
        diagnostic.Persist(now, "raced the build", false);
      }
    }
  }

  lemma WriteKeepsDistinct(rows: Rows, w: ApprovalWrite)
    requires Distinct(rows)
    ensures Distinct(AfterWrite(rows, Exact, w))
  {
    var after := AfterWrite(rows, Exact, w);
    forall i, j | i in after && j in after && i != j && after[i].Some?
      ensures after[i] != after[j]
    {
      if after != rows {
        assert i != w.id ==> after[i] == rows[i];
        assert j != w.id ==> after[j] == rows[j];
      }
    }
  }

  // ---- boots as processes ----

  /** Where a boot stands inside the call. `named` remembers whether its listing of
      the indexes showed one of that name. */
  datatype Progress = Idle | Listed(named: bool) | Checked(named: bool) | Dropped | Clearing | Persisting

  datatype World = World(rows: Rows, index: NamedIndex, diagnostic: Document, boots: map<nat, Progress>)

  datatype Step =
    | Write(write: ApprovalWrite)
    | Advance(boot: nat, now: Time)
    | Die(boot: nat)

  function ProgressOf(w: World, boot: nat): Progress {
    if boot in w.boots then w.boots[boot] else Idle
  }

  /** The next database operation of a boot. */
  ghost function AdvanceBoot(w: World, boot: nat, now: Time): World {
    match ProgressOf(w, boot)
    case Idle =>
      w.(boots := w.boots[boot := if w.index == Exact then Clearing else Listed(w.index != Absent)])
    case Listed(named) =>
      w.(boots := w.boots[boot := if DuplicateGroups(w.rows) != {} then Persisting else Checked(named)])
    case Checked(named) =>
      if !named then w.(boots := w.boots[boot := Dropped])
      else if w.index == Absent then w.(boots := w.boots[boot := Idle]) // dropping a missing index fails the call
      else w.(index := Absent, boots := w.boots[boot := Dropped])
    case Dropped =>
      if w.index == Mismatched then w.(boots := w.boots[boot := Idle]) // a conflicting index fails the call
      else if w.index == Exact || Distinct(w.rows) then w.(index := Exact, boots := w.boots[boot := Clearing])
      else w.(boots := w.boots[boot := Persisting])
    case Clearing =>
      w.(diagnostic := Resolve(w.diagnostic, now), boots := w.boots[boot := Idle])
    case Persisting =>
      w.(diagnostic := PersistOf(w.diagnostic, now, ""), boots := w.boots[boot := Idle])
  }

  ghost function Do(w: World, s: Step): World {
    match s
    case Write(write) => w.(rows := AfterWrite(w.rows, w.index, write))
    case Advance(boot, now) => AdvanceBoot(w, boot, now)
    case Die(boot) => w.(boots := w.boots[boot := Idle])
  }

  ghost function Run(w: World, steps: seq<Step>): World
    decreases steps
  {
    if steps == [] then w else Run(Do(w, steps[0]), steps[1..])
  }

  // ---- the index keeps its promise, whoever boots ----

  ghost predicate IndexHolds(w: World) {
    w.index == Exact ==> Distinct(w.rows)
  }

  /** While the exact index is installed no two keyed rows share the five fields,
      in every run of any number of boots, crashes and approval writes. */
  lemma {:induction false} IndexHoldsInEveryRun(w: World, steps: seq<Step>)
    requires IndexHolds(w)
    ensures IndexHolds(Run(w, steps))
    decreases steps
  {
    if steps != [] {
      if steps[0].Write? && w.index == Exact {
        WriteKeepsDistinct(w.rows, steps[0].write);
      }
      IndexHoldsInEveryRun(Do(w, steps[0]), steps[1..]);
    }
  }

  // ---- a boot that is left alone ----

  ghost function Moved(w: World, boot: nat, now: Time, n: nat): World
    decreases n
  {
    if n == 0 then w else Do(Moved(w, boot, now, n - 1), Advance(boot, now))
  }

  /** It does what the call of `Approvals` does: an index that is exact stays, duplicates leave
      everything as it is, and otherwise the exact index is built; the diagnostic is resolved
      or activated accordingly. */
  lemma BootAlone(w: World, boot: nat, now: Time)
    requires ProgressOf(w, boot) == Idle
    ensures var v := Moved(w, boot, now, if w.index == Exact then 2 else if Distinct(w.rows) then 5 else 3);
      && v.rows == w.rows && ProgressOf(v, boot) == Idle
      && (w.index == Exact || Distinct(w.rows) ==> v.index == Exact && v.diagnostic == Resolve(w.diagnostic, now))
      && (w.index != Exact && !Distinct(w.rows) ==> v.index == w.index && v.diagnostic == PersistOf(w.diagnostic, now, ""))
  {
    NoDuplicateGroups(w.rows);
    var w1 := Moved(w, boot, now, 1);
    var w2 := Do(w1, Advance(boot, now));
    var w3 := Do(w2, Advance(boot, now));
    assert w2 == Moved(w, boot, now, 2) && w3 == Moved(w, boot, now, 3);
    if w.index != Exact && Distinct(w.rows) {
      var w4 := Do(w3, Advance(boot, now));
      assert w4 == Moved(w, boot, now, 4);
      assert w3.index == Absent && w4.index == Exact;
      assert Do(w4, Advance(boot, now)) == Moved(w, boot, now, 5);
    }
  }

  // ---- what a boot knows, and when that has gone stale ----

  /** What a boot knows about the index at each point of its call. */
  ghost predicate Knows(w: World, p: Progress) {
    match p
    case Idle => true
    case Listed(named) => w.index != Exact && (named <==> w.index == Mismatched)
    case Checked(named) => w.index != Exact && (named <==> w.index == Mismatched)
    case Dropped => w.index == Absent
    case Clearing => w.index == Exact
    case Persisting => w.index != Exact
  }

  /** A call completes when it writes the diagnostic. */
  predicate Completes(w: World, s: Step) {
    s.Advance? && ProgressOf(w, s.boot) in {Clearing, Persisting}
  }

  /** The step drops the index of that name, whatever it is by now. */
  predicate Drops(w: World, s: Step) {
    s.Advance? && ProgressOf(w, s.boot) == Checked(true) && w.index != Absent
  }

  ghost predicate Agree(w: World) {
    IsActive(w.diagnostic) <==> w.index != Exact
  }

  /** In any world: the exact index is lost exactly to a boot that has listed an index of
      that name, and a completed call leaves diagnostic and index in agreement exactly
      when it clears with the exact index there or persists without it. A call fails in the
      middle exactly when it drops an index that is gone, or builds over another one. */
  lemma StepEffects(w: World, s: Step)
    ensures w.index == Exact ==>
      (Do(w, s).index != Exact <==> s.Advance? && ProgressOf(w, s.boot) == Checked(true))
    ensures Completes(w, s) ==> (Agree(Do(w, s)) <==> (ProgressOf(w, s.boot) == Clearing <==> w.index == Exact))
    ensures s.Advance? && ProgressOf(w, s.boot) != Idle && !Completes(w, s) ==>
      (ProgressOf(Do(w, s), s.boot) == Idle <==>
         || (ProgressOf(w, s.boot) == Checked(true) && w.index == Absent)
         || (ProgressOf(w, s.boot) == Dropped && w.index == Mismatched))
  {
  }

  /** No exact index is lost, and a completed call leaves agreement. */
  ghost predicate KeepsBoth(w: World, s: Step) {
    (w.index == Exact ==> Do(w, s).index == Exact) && (Completes(w, s) ==> Agree(Do(w, s)))
  }

  /** A boot drops, clears or persists on a listing that is no longer true. */
  ghost predicate ActsOnStale(w: World, s: Step) {
    (Drops(w, s) || Completes(w, s)) && !Knows(w, ProgressOf(w, s.boot))
  }

  lemma StepKeepsExactly(w: World, s: Step)
    ensures KeepsBoth(w, s) <==> !ActsOnStale(w, s)
  {
    StepEffects(w, s);
  }

  ghost predicate RunKeepsBoth(w: World, steps: seq<Step>)
    decreases steps
  {
    steps == [] || (KeepsBoth(w, steps[0]) && RunKeepsBoth(Do(w, steps[0]), steps[1..]))
  }

  ghost predicate NeverStale(w: World, steps: seq<Step>)
    decreases steps
  {
    steps == [] || (!ActsOnStale(w, steps[0]) && NeverStale(Do(w, steps[0]), steps[1..]))
  }

  /** For every run of any boots, overlapping or not, with crashes and approval writes at
      any point: the exact index is never dropped and every completed call leaves the
      diagnostic active exactly when it is missing, if and only if no boot acts on a
      listing that has gone stale. */
  lemma {:induction false} RunKeepsExactly(w: World, steps: seq<Step>)
    ensures RunKeepsBoth(w, steps) <==> NeverStale(w, steps)
    decreases steps
  {
    if steps != [] {
      StepKeepsExactly(w, steps[0]);
      RunKeepsExactly(Do(w, steps[0]), steps[1..]);
    }
  }

  /** The step changes the index under a boot that is not its own. */
  ghost predicate Interferes(w: World, s: Step, b: nat) {
    s.Advance? && s.boot != b && Do(w, s).index != w.index && ProgressOf(w, b) != Idle
  }

  /** A listing goes stale exactly when another boot builds or drops the index inside the
      call; only a boot about to persist does not care about a drop. Approval writes and
      crashes never make it stale, nor do the boot's own steps. */
  lemma StaleExactly(w: World, s: Step, b: nat)
    requires Knows(w, ProgressOf(w, b))
    ensures !Knows(Do(w, s), ProgressOf(Do(w, s), b)) <==>
            Interferes(w, s, b) && !(ProgressOf(w, b) == Persisting && Do(w, s).index == Absent)
  {
    assert s.Advance? && s.boot != b ==> ProgressOf(Do(w, s), b) == ProgressOf(w, b);
    assert s.Die? && s.boot != b ==> ProgressOf(Do(w, s), b) == ProgressOf(w, b);
    assert s.Write? ==> ProgressOf(Do(w, s), b) == ProgressOf(w, b);
  }

  ghost predicate Undisturbed(w: World, steps: seq<Step>)
    decreases steps
  {
    steps == [] || ((forall b: nat :: !Interferes(w, steps[0], b)) && Undisturbed(Do(w, steps[0]), steps[1..]))
  }

  ghost predicate AllKnow(w: World) {
    forall b: nat :: Knows(w, ProgressOf(w, b))
  }

  /** Boots may overlap as they like: while none of them changes the index inside the
      call of another one, nothing goes wrong. */
  lemma {:induction false} UndisturbedIsEnough(w: World, steps: seq<Step>)
    requires AllKnow(w) && Undisturbed(w, steps)
    ensures AllKnow(Run(w, steps)) && RunKeepsBoth(w, steps)
    decreases steps
  {
    if steps != [] {
      forall b: nat
        ensures Knows(Do(w, steps[0]), ProgressOf(Do(w, steps[0]), b))
      {
        StaleExactly(w, steps[0], b);
      }
      StepKeepsExactly(w, steps[0]);
      UndisturbedIsEnough(Do(w, steps[0]), steps[1..]);
    }
  }

  // ---- the same in terms of what happened inside a call ----

  datatype Change = Built | Gone

  /** The last change of the index inside the call of a boot, whoever made it. */
  type Changes = map<nat, Change>

  function LastChange(last: Changes, boot: nat): Option<Change> {
    if boot in last then Some(last[boot]) else None
  }

  /** A step that changes the index is noted for every boot inside a call; a call that ends
      or dies is forgotten. */
  ghost function Noted(w: World, s: Step, last: Changes): Changes {
    var v := Do(w, s);
    if v.index == w.index then map b | b in last && ProgressOf(v, b) != Idle :: last[b]
    else map b | b in v.boots && ProgressOf(v, b) != Idle :: if v.index == Exact then Built else Gone
  }

  /** A drop or an alarm behind a build, or an all-clear behind a drop. */
  predicate TooLate(w: World, s: Step, last: Changes) {
    && (Drops(w, s) || Completes(w, s))
    && LastChange(last, s.boot) == Some(if ProgressOf(w, s.boot) == Clearing then Gone else Built)
  }

  ghost predicate NeverTooLate(w: World, steps: seq<Step>, last: Changes)
    decreases steps
  {
    steps == [] || (!TooLate(w, steps[0], last) && NeverTooLate(Do(w, steps[0]), steps[1..], Noted(w, steps[0], last)))
  }

  /** What the notes say: a noted change is how the index stands, and without one the
      listing is still true. */
  ghost predicate NotesHold(w: World, b: nat, change: Option<Change>) {
    match change
    case Some(Built) => w.index == Exact
    case Some(Gone) => w.index == Absent
    case None => Knows(w, ProgressOf(w, b))
  }

  ghost predicate AllNotesHold(w: World, last: Changes) {
    forall b: nat :: NotesHold(w, b, LastChange(last, b))
  }

  lemma StepKeepsNotes(w: World, s: Step, last: Changes)
    requires AllNotesHold(w, last)
    ensures AllNotesHold(Do(w, s), Noted(w, s, last))
  {
    var v := Do(w, s);
    forall b: nat
      ensures NotesHold(v, b, LastChange(Noted(w, s, last), b))
    {
      assert NotesHold(w, b, LastChange(last, b));
      assert s.Advance? && s.boot != b ==> ProgressOf(v, b) == ProgressOf(w, b);
      assert s.Die? && s.boot != b ==> ProgressOf(v, b) == ProgressOf(w, b);
      assert s.Write? ==> ProgressOf(v, b) == ProgressOf(w, b);
      assert ProgressOf(v, b) != Idle ==> b in v.boots;
    }
  }

  lemma StaleMeansTooLate(w: World, s: Step, last: Changes)
    requires AllNotesHold(w, last)
    ensures ActsOnStale(w, s) <==> TooLate(w, s, last)
  {
    if s.Advance? {
      assert NotesHold(w, s.boot, LastChange(last, s.boot));
    }
  }

  lemma {:induction false} NeverStaleMeansNeverTooLate(w: World, steps: seq<Step>, last: Changes)
    requires AllNotesHold(w, last)
    ensures NeverStale(w, steps) <==> NeverTooLate(w, steps, last)
    decreases steps
  {
    if steps != [] {
      StaleMeansTooLate(w, steps[0], last);
      StepKeepsNotes(w, steps[0], last);
      NeverStaleMeansNeverTooLate(Do(w, steps[0]), steps[1..], Noted(w, steps[0], last));
    }
  }

  /** For every run from a world where every listing is true: nothing goes wrong if and only
      if no boot drops the index or raises the alarm when the last change inside its call was
      a build, and none gives the all-clear when it was a drop. */
  lemma RunKeepsByEvents(w: World, steps: seq<Step>)
    requires AllKnow(w)
    ensures RunKeepsBoth(w, steps) <==> NeverTooLate(w, steps, map[])
  {
    RunKeepsExactly(w, steps);
    NeverStaleMeansNeverTooLate(w, steps, map[]);
  }

  // ---- one boot at a time ----

  /** A boot only moves while no other one is inside the call. */
  ghost predicate OneAtATime(w: World, steps: seq<Step>)
    decreases steps
  {
    steps == [] ||
    ((steps[0].Advance? ==> forall b :: b != steps[0].boot ==> ProgressOf(w, b) == Idle)
     && OneAtATime(Do(w, steps[0]), steps[1..]))
  }

  ghost predicate Orderly(w: World) {
    && AllKnow(w)
    && (forall b, c :: b != c ==> ProgressOf(w, b) == Idle || ProgressOf(w, c) == Idle)
  }

  lemma OrderlyStep(w: World, s: Step)
    requires Orderly(w)
    requires s.Advance? ==> forall b :: b != s.boot ==> ProgressOf(w, b) == Idle
    ensures Orderly(Do(w, s)) && !ActsOnStale(w, s)
  {
    var v := Do(w, s);
    forall b: nat
      ensures Knows(v, ProgressOf(v, b))
    {
      StaleExactly(w, s, b);
    }
    assert s.Advance? ==> forall b :: b != s.boot ==> ProgressOf(v, b) == ProgressOf(w, b);
    assert s.Die? ==> forall b :: b != s.boot ==> ProgressOf(v, b) == ProgressOf(w, b);
    assert s.Write? ==> forall b :: ProgressOf(v, b) == ProgressOf(w, b);
  }

  /** For every run of boots one after the other, with crashes and approval writes
      at any point: the exact index is never dropped, and every completed call leaves
      the diagnostic active exactly when the exact index is not installed. */
  lemma {:induction false} BootsInTurnAgree(w: World, steps: seq<Step>, last: Step)
    requires Orderly(w) && OneAtATime(w, steps + [last])
    ensures Orderly(Run(w, steps))
    ensures w.index == Exact ==> Run(w, steps).index == Exact
    ensures Completes(Run(w, steps), last) ==> Agree(Do(Run(w, steps), last))
    decreases steps
  {
    if steps == [] {
      assert (steps + [last])[0] == last;
      OrderlyStep(w, last);
      StepKeepsExactly(w, last);
    } else {
      assert (steps + [last])[0] == steps[0] && (steps + [last])[1..] == steps[1..] + [last];
      OrderlyStep(w, steps[0]);
      StepKeepsExactly(w, steps[0]);
      BootsInTurnAgree(Do(w, steps[0]), steps[1..], last);
    }
  }

  /** Not so for replicas that boot together: one that listed a mismatched index
      drops, by name, the exact index another one has built in the meantime. */
  lemma RacingBootsDropExactIndex()
    ensures exists w, steps, s ::
              Orderly(w) && Run(w, steps).index == Exact && Do(Run(w, steps), s).index == Absent
  {
    var w := World(map[], Mismatched, None, map[]);
    var listing, steps := [Advance(1, 0), Advance(1, 0)], [Advance(0, 0), Advance(0, 0), Advance(0, 0), Advance(0, 0)];
    assert DuplicateGroups(map[]) == {};
    var w1 := World(map[], Mismatched, None, map[1 := Listed(true)]);
    var w2 := World(map[], Mismatched, None, map[1 := Checked(true)]);
    assert Do(w, listing[0]) == w1 && Do(w1, listing[1]) == w2;
    var w3 := w2.(boots := map[1 := Checked(true), 0 := Listed(true)]);
    var w4 := w2.(boots := map[1 := Checked(true), 0 := Checked(true)]);
    var w5 := w2.(index := Absent, boots := map[1 := Checked(true), 0 := Dropped]);
    var w6 := w2.(index := Exact, boots := map[1 := Checked(true), 0 := Clearing]);
    assert Do(w2, steps[0]) == w3 && Do(w3, steps[1]) == w4 && Do(w4, steps[2]) == w5 && Do(w5, steps[3]) == w6;
    ReachedInSix(w, w1, w2, w3, w4, w5, w6, listing + steps);
    assert Do(w6, Advance(1, 0)).index == Absent;
  }

  lemma ReachedInSix(w: World, w1: World, w2: World, w3: World, w4: World, w5: World, w6: World, steps: seq<Step>)
    requires |steps| == 6
    requires Do(w, steps[0]) == w1 && Do(w1, steps[1]) == w2 && Do(w2, steps[2]) == w3
    requires Do(w3, steps[3]) == w4 && Do(w4, steps[4]) == w5 && Do(w5, steps[5]) == w6
    ensures Run(w, steps) == w6
  {
    assert Run(w5, steps[5..]) == w6;
    assert Run(w4, steps[4..]) == Run(w5, steps[5..]);
    assert Run(w3, steps[3..]) == Run(w4, steps[4..]);
    assert Run(w2, steps[2..]) == Run(w3, steps[3..]);
    assert Run(w1, steps[1..]) == Run(w2, steps[2..]);
  }

  lemma Goes(w: World, s: Step, v: World, rest: seq<Step>)
    requires Do(w, s) == v && KeepsBoth(w, s) && RunKeepsBoth(v, rest)
    ensures RunKeepsBoth(w, [s] + rest) && Run(w, [s] + rest) == Run(v, rest)
  {
    assert ([s] + rest)[0] == s && ([s] + rest)[1..] == rest;
  }

  lemma Preflights(identity: Identity)
    ensures DuplicateGroups(map[1 := Some(identity), 2 := Some(identity)]) != {}
    ensures DuplicateGroups(map[2 := Some(identity)]) == {} && Distinct(map[2 := Some(identity)])
  {
    var two: Rows, one: Rows := map[1 := Some(identity), 2 := Some(identity)], map[2 := Some(identity)];
    NoDuplicateGroups(two);
    NoDuplicateGroups(one);
    assert two[1] == two[2];
  }

  /** Boot 0 sees duplicates and is about to persist; a write removes one of them; boot 1
      lists, checks, builds and clears. */
  lemma BuildBehindAlarm(identity: Identity) returns (w: World, steps: seq<Step>)
    ensures w.boots == map[] && w.index == Absent && RunKeepsBoth(w, steps)
    ensures Run(w, steps) == World(map[2 := Some(identity)], Exact, None, map[0 := Persisting, 1 := Idle])
  {
    Preflights(identity);
    var two: Rows, one: Rows := map[1 := Some(identity), 2 := Some(identity)], map[2 := Some(identity)];
    w := World(two, Absent, None, map[]);
    var w1 := w.(boots := map[0 := Listed(false)]);
    var w2 := w.(boots := map[0 := Persisting]);
    var w3 := w2.(rows := one);
    var gone := Write(ApprovalWrite(1, None, false));
    assert Written(two, gone.write) == one;
    steps := BuildAfterAlarm(w3, identity);
    Goes(w2, gone, w3, steps);
    Goes(w1, Advance(0, 0), w2, [gone] + steps);
    Goes(w, Advance(0, 0), w1, [Advance(0, 0)] + ([gone] + steps));
    steps := [Advance(0, 0)] + ([Advance(0, 0)] + ([gone] + steps));
  }

  lemma BuildAfterAlarm(w: World, identity: Identity) returns (steps: seq<Step>)
    requires w == World(map[2 := Some(identity)], Absent, None, map[0 := Persisting])
    ensures RunKeepsBoth(w, steps)
    ensures Run(w, steps) == World(map[2 := Some(identity)], Exact, None, map[0 := Persisting, 1 := Idle])
  {
    Preflights(identity);
    var w4 := w.(boots := map[0 := Persisting, 1 := Listed(false)]);
    var w5 := w.(boots := map[0 := Persisting, 1 := Checked(false)]);
    var w6 := w.(boots := map[0 := Persisting, 1 := Dropped]);
    var w7 := w.(index := Exact, boots := map[0 := Persisting, 1 := Clearing]);
    var w8 := w.(index := Exact, boots := map[0 := Persisting, 1 := Idle]);
    var next := Advance(1, 0);
    steps := [];
    Goes(w7, next, w8, steps);
    steps := [next] + steps;
    Goes(w6, next, w7, steps);
    steps := [next] + steps;
    Goes(w5, next, w6, steps);
    steps := [next] + steps;
    Goes(w4, next, w5, steps);
    steps := [next] + steps;
    Goes(w, next, w4, steps);
    steps := [next] + steps;
  }

  /** And without any index being lost, a boot whose preflight saw duplicates can raise
      the alarm after they are gone and another boot has built the index. */
  lemma RacingBootsRaiseFalseAlarm(identity: Identity)
    ensures exists w, steps, s ::
              && Orderly(w) && IndexHolds(w) && RunKeepsBoth(w, steps) && Completes(Run(w, steps), s)
              && Do(Run(w, steps), s).index == Exact && IsActive(Do(Run(w, steps), s).diagnostic)
  {
    var w, steps := BuildBehindAlarm(identity);
    assert forall b: nat :: ProgressOf(w, b) == Idle;
    var v, s := Run(w, steps), Advance(0, 0);
    assert ProgressOf(v, 0) == Persisting;
    assert Completes(v, s) && Do(v, s).index == Exact && IsActive(Do(v, s).diagnostic);
    assert Orderly(w);
  }
}
