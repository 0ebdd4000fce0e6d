/** How often a source row is copied in runs of `BootReplicas`: once ever for tokens and
    connections, and for a binding again only by a replica whose look-up was too early. */
module BootCopies {
  import opened Options
  import opened UserTables
  import opened Copies
  import opened BootReplicas
  import opened BootServices
  import opened BootNames

  // ---- tokens and connections ----

  predicate IsTransactional(s: Service) {
    s.source == Some(TOKEN_SOURCE) || s.source == Some(CONNECTION_SOURCE)
  }

  predicate SameOrigin(a: Service, b: Service) {
    a.source.Some? && a.sourceId.Some? && a.source == b.source && a.sourceId == b.sourceId
  }

  predicate SamePlace(a: Service, b: Service) {
    a.user == b.user && a.catalog == b.catalog
  }

  /** Before the copy `b` there was no active service of its pair, and a row from the same
      source only for another pair. */
  predicate ComesFirst(a: Service, b: Service) {
    && (b.catalog.Some? ==> !Serves(a, b.user, b.catalog.value))
    && (SameOrigin(a, b) ==> a.catalog.Some? && !SamePlace(a, b))
  }

  ghost predicate CopiesComeFirst(h: map<Id, Service>, basis: set<Id>) {
    forall i, j :: i in h && j in basis && j in h && i < j && IsTransactional(h[j]) ==> ComesFirst(h[i], h[j])
  }

  /** A row whose source passes the guards is gone, and was an active duplicate. */
  lemma SourceRowIsGone(w: World, d: Draft, i: Id)
    requires Listed(w) && Guards(w.tables, d) && i in w.history
    requires w.history[i].source == Some(d.source) && w.history[i].sourceId == Some(d.sourceId)
    ensures w.history[i].active && w.history[i].catalog.Some?
  {
    var t := w.tables;
    assert forall j :: j in t.services ==> SameButNode(t.services[j], w.history[j]);
    assert i !in t.services;
    assert WasDuplicate(w.history, i);
  }

  lemma CommitComesFirst(w: World, d: Draft, e: Id, k: Id, i: Id)
    requires Listed(w) && Guards(w.tables, d) && i in w.history
    ensures ComesFirst(w.history[i], DraftService(d, e, k))
  {
    var a, b := w.history[i], DraftService(d, e, k);
    if b.catalog.Some? && Serves(a, b.user, b.catalog.value) {
      OnceServedStaysServed(w, i, b.user, b.catalog.value);
    }
    if SameOrigin(a, b) {
      SourceRowIsGone(w, d, i);
    }
  }

  lemma FilingKeepsFirst(h: map<Id, Service>, next: Id, basis: set<Id>, i: Id, s: Service)
    requires (forall j :: j in h ==> j < next) && next <= i && CopiesComeFirst(h, basis)
    requires IsTransactional(s) ==> forall j :: j in h ==> ComesFirst(h[j], s)
    ensures CopiesComeFirst(h[i := s], basis + {i})
  {
  }

  lemma AdvanceKeepsFirst(src: Sources, w: World, r: ReplicaId, fails: bool)
    requires Listed(w) && r in w.pending && Known(src, w.history, w.pending[r])
    requires CopiesComeFirst(w.history, w.basis.Keys)
    ensures var v := Do(src, w, Advance(r, fails)); CopiesComeFirst(v.history, v.basis.Keys)
  {
    var h, t, e := w.history, w.tables, TurnOf(src, w.history, w.tables, w.pending[r], fails).effect;
    if AddsService(e) {
      FiledRowComesFirst(src, w, r, fails);
      FilingKeepsFirst(h, t.next, w.basis.Keys, FiledId(t, e), FiledRow(t, e));
      assert w.basis.Keys + {FiledId(t, e)} == Backing(w.basis, t, e, SeenBy(w.pending[r])).Keys;
    }
  }

  lemma FiledRowComesFirst(src: Sources, w: World, r: ReplicaId, fails: bool)
    requires Listed(w) && r in w.pending && Known(src, w.history, w.pending[r])
    requires AddsService(TurnOf(src, w.history, w.tables, w.pending[r], fails).effect)
    ensures var s := FiledRow(w.tables, TurnOf(src, w.history, w.tables, w.pending[r], fails).effect);
      IsTransactional(s) ==> forall j :: j in w.history ==> ComesFirst(w.history[j], s)
  {
    var t, e := w.tables, TurnOf(src, w.history, w.tables, w.pending[r], fails).effect;
    if IsTransactional(FiledRow(t, e)) {
      assert e.NewTriple? && Guards(t, e.draft);
      forall j | j in w.history
        ensures ComesFirst(w.history[j], FiledRow(t, e))
      {
        CommitComesFirst(w, e.draft, t.next, t.next + 1, j);
      }
    }
  }

  lemma CreateKeepsFirst(src: Sources, w: World, d: Draft)
    requires Listed(w) && CopiesComeFirst(w.history, w.basis.Keys)
    ensures var v := Do(src, w, Create(d)); CopiesComeFirst(v.history, v.basis.Keys)
  {
    if !("migration_" <= d.source || BreaksIndex(w.tables, d)) {
      var t := w.tables;
      var s := DraftService(d, t.next, t.next + 1);
      assert !IsTransactional(s);
      FilingKeepsFirst(w.history, t.next, w.basis.Keys, t.next + 2, s);
    }
  }

  lemma OtherStepsFileNothing(src: Sources, w: World, step: Step)
    requires !step.Advance? && !step.Create?
    ensures Do(src, w, step).history == w.history && Do(src, w, step).basis == w.basis
  {
  }

  lemma StepKeepsFirst(src: Sources, w: World, step: Step)
    requires Listed(w) && CopiesComeFirst(w.history, w.basis.Keys)
    ensures var v := Do(src, w, step); CopiesComeFirst(v.history, v.basis.Keys)
  {
    if step.Advance? {
      if step.replica in w.pending && Known(src, w.history, w.pending[step.replica]) {
        AdvanceKeepsFirst(src, w, step.replica, step.fails);
      }
    } else if step.Create? {
      CreateKeepsFirst(src, w, step.draft);
    } else {
      OtherStepsFileNothing(src, w, step);
    }
  }

  lemma {:induction false} EveryRunKeepsFirst(src: Sources, w: World, steps: seq<Step>)
    requires Listed(w) && CopiesComeFirst(w.history, w.basis.Keys)
    ensures CopiesComeFirst(Run(src, w, steps).history, Run(src, w, steps).basis.Keys)
    decreases steps
  {
    if steps != [] {
      StepIsListed(src, w, steps[0]);
      StepKeepsFirst(src, w, steps[0]);
      EveryRunKeepsFirst(src, Do(src, w, steps[0]), steps[1..]);
    }
  }

  lemma CopiesFollowTheirSource(src: Sources, h: map<Id, Service>, basis: map<Id, set<Id>>, j: Id)
    requires BasisNamed(src, h, basis) && j in basis
    ensures j in h && FollowsSource(src, h[j])
  {
    assert Backed(src, h, h[j], basis[j]);
  }

  /** A copied row has no other row from its source, unless one of the first rows, for
      another user or catalog entry. */
  predicate OnlyCopy(first: set<Id>, a: Service, i: Id, b: Service) {
    SameOrigin(a, b) ==> i in first && !SamePlace(a, b)
  }

  /** Two copies of one token or connection would be for the same pair. */
  lemma CopiesDiffer(src: Sources, a: Service, b: Service)
    requires FollowsSource(src, a) && FollowsSource(src, b) && IsTransactional(b)
    requires ComesFirst(a, b) || (IsTransactional(a) && ComesFirst(b, a))
    ensures !SameOrigin(a, b)
  {
  }

  lemma CopiedOnce(src: Sources, first: set<Id>, w: World, i: Id, j: Id)
    requires BasisNamed(src, w.history, w.basis) && Filed(w.history, first, w.basis.Keys, w.others)
    requires CopiesComeFirst(w.history, w.basis.Keys)
    requires forall f, k :: f in first && k in w.basis ==> f < k
    requires i in w.history && j in w.basis && i != j && j in w.history && IsTransactional(w.history[j])
    ensures OnlyCopy(first, w.history[i], i, w.history[j])
  {
    if i in w.basis && SameOrigin(w.history[i], w.history[j]) {
      CopiesFollowTheirSource(src, w.history, w.basis, i);
      CopiesFollowTheirSource(src, w.history, w.basis, j);
      CopiesDiffer(src, w.history[i], w.history[j]);
    } else if i in first {
      assert ComesFirst(w.history[i], w.history[j]);
    }
  }

  /** Of all rows that ever are in a run, removed ones included, a copied token or connection
      has no other row from its source, unless one was there at the start for another user or
      catalog entry: no copy that a cleanup removed is ever made again. And a copy that a
      transaction made was the first active service its pair ever had. */
  lemma EveryRunCopiesOnce(src: Sources, t: Tables, steps: seq<Step>, i: Id, j: Id)
    requires Supplied(t)
    ensures var w := Run(src, Start(t), steps);
      i in w.history && j in w.basis && i != j ==>
        && j in w.history
        && (IsTransactional(w.history[j]) ==>
              && OnlyCopy(t.services.Keys, w.history[i], i, w.history[j])
              && (i < j && w.history[j].catalog.Some? ==> !Serves(w.history[i], w.history[j].user, w.history[j].catalog.value)))
  {
    var w := Run(src, Start(t), steps);
    StartIsListed(t);
    StartIsNamed(src, t);
    EveryRunIsNamed(src, t.services.Keys, Start(t), steps);
    EveryRunKeepsFirst(src, Start(t), steps);
    FirstRowsAreOld(src, t, steps);
    if i in w.history && j in w.basis && i != j {
      CopiesFollowTheirSource(src, w.history, w.basis, j);
      if IsTransactional(w.history[j]) {
        CopiedOnce(src, t.services.Keys, w, i, j);
        assert i < j ==> ComesFirst(w.history[i], w.history[j]);
      }
    }
  }

  /** Copies get later identifiers than the rows at the start. */
  lemma FirstRowsAreOld(src: Sources, t: Tables, steps: seq<Step>)
    requires Supplied(t)
    ensures forall i, j :: i in t.services && j in Run(src, Start(t), steps).basis ==> i < j
  {
    StartIsListed(t);
    CopiesAreLate(src, Start(t), steps, t.next);
  }

  lemma {:induction false} CopiesAreLate(src: Sources, w: World, steps: seq<Step>, next: Id)
    requires next <= w.tables.next && forall j :: j in w.basis ==> next <= j
    ensures forall j :: j in Run(src, w, steps).basis ==> next <= j
    decreases steps
  {
    if steps != [] {
      StepIsLate(src, w, steps[0], next);
      CopiesAreLate(src, Do(src, w, steps[0]), steps[1..], next);
    }
  }

  lemma StepIsLate(src: Sources, w: World, step: Step, next: Id)
    requires next <= w.tables.next && forall j :: j in w.basis ==> next <= j
    ensures next <= Do(src, w, step).tables.next && forall j :: j in Do(src, w, step).basis ==> next <= j
  {
  }

  // ---- bindings ----

  /** The task is a binding copy for the pair that found no service of it. */
  predicate Engaged(src: Sources, task: Task, user: Id, c: Id) {
    && (task.Looked? || task.Keyless? || task.Resolved? || task.EndpointIn? || task.KeyIn?)
    && task.id in src.bindings && src.bindings[task.id].user == user && src.bindings[task.id].service == c
  }

  lemma TurnEngagesNobody(src: Sources, h: map<Id, Service>, t: Tables, task: Task, fails: bool, user: Id, c: Id)
    requires Known(src, h, task) && Siblings(t, user, c) != {}
    ensures var next := TurnOf(src, h, t, task, fails).next;
      next.Some? && Engaged(src, next.value, user, c) ==> Engaged(src, task, user, c) && task.id == next.value.id
  {
  }

  lemma OtherStepsEngageNobody(src: Sources, w: World, step: Step, user: Id, c: Id, q: ReplicaId)
    requires !step.Advance?
    requires q in Do(src, w, step).pending && Engaged(src, Do(src, w, step).pending[q], user, c)
    ensures q in w.pending && w.pending[q] == Do(src, w, step).pending[q]
  {
  }

  /** While the pair has a service, no binding copy gets past its look-ups. */
  lemma NobodyNewEngages(src: Sources, w: World, step: Step, user: Id, c: Id, q: ReplicaId)
    requires Siblings(w.tables, user, c) != {}
    requires q in Do(src, w, step).pending && Engaged(src, Do(src, w, step).pending[q], user, c)
    ensures q in w.pending && Engaged(src, w.pending[q], user, c) && w.pending[q].id == Do(src, w, step).pending[q].id
  {
    if !step.Advance? {
      OtherStepsEngageNobody(src, w, step, user, c, q);
    } else if step.replica in w.pending && Known(src, w.history, w.pending[step.replica]) {
      TurnEngagesNobody(src, w.history, w.tables, w.pending[step.replica], step.fails, user, c);
    }
  }

  lemma AddedByEngaged(src: Sources, w: World, step: Step, user: Id, c: Id, j: Id)
    requires Siblings(w.tables, user, c) != {}
    requires j in Do(src, w, step).history && j !in w.history
    requires IsMigrated(Do(src, w, step).history[j]) && Serves(Do(src, w, step).history[j], user, c)
    ensures Do(src, w, step).history[j].source == Some(BINDING_SOURCE)
    ensures exists q :: q in w.pending && Engaged(src, w.pending[q], user, c)
                        && Do(src, w, step).history[j].sourceId == Some(w.pending[q].id)
  {
    if step.Advance? {
      assert Engaged(src, w.pending[step.replica], user, c);
    }
  }

  /** Once a pair had a service, a migration adds another one only for a binding on which
      some replica was engaged already. */
  lemma {:induction false} OnlyEngagedAdd(src: Sources, w: World, steps: seq<Step>, i: Id, user: Id, c: Id, j: Id)
    requires Listed(w) && i in w.history && Serves(w.history[i], user, c)
    requires j in Run(src, w, steps).history && j !in w.history
    requires IsMigrated(Run(src, w, steps).history[j]) && Serves(Run(src, w, steps).history[j], user, c)
    ensures Run(src, w, steps).history[j].source == Some(BINDING_SOURCE)
    ensures exists q :: q in w.pending && Engaged(src, w.pending[q], user, c)
                        && Run(src, w, steps).history[j].sourceId == Some(w.pending[q].id)
    decreases steps
  {
    var v := Do(src, w, steps[0]);
    StepIsListed(src, w, steps[0]);
    OnceServedStaysServed(w, i, user, c);
    if j in v.history {
      HistoryLasts(src, v, steps[1..], j);
      AddedByEngaged(src, w, steps[0], user, c, j);
    } else {
      StepKeepsHistory(src, w, steps[0]);
      OnlyEngagedAdd(src, v, steps[1..], i, user, c, j);
      var q :| q in v.pending && Engaged(src, v.pending[q], user, c)
               && Run(src, v, steps[1..]).history[j].sourceId == Some(v.pending[q].id);
      NobodyNewEngages(src, w, steps[0], user, c, q);
    }
  }

  /** A binding whose pair had a service once, such as its own copy that a cleanup removed,
      is copied from then on only by replicas that were engaged on it by then. */
  lemma BindingCopiedAgainOnlyByEngaged(src: Sources, t: Tables, before: seq<Step>, steps: seq<Step>, i: Id, id: Id, j: Id)
    requires Supplied(t) && id in src.bindings
    ensures var w := Run(src, Start(t), before);
      var b, v := src.bindings[id], Run(src, w, steps);
      && i in w.history && Serves(w.history[i], b.user, b.service)
      && j in v.history && j !in w.history && v.history[j].source == Some(BINDING_SOURCE) && v.history[j].sourceId == Some(id) ==>
        exists q :: q in w.pending && Engaged(src, w.pending[q], b.user, b.service) && w.pending[q].id == id
  {
    var w := Run(src, Start(t), before);
    StartIsListed(t);
    StartIsNamed(src, t);
    EveryRunIsNamed(src, t.services.Keys, Start(t), before);
    EveryRunIsNamed(src, t.services.Keys, w, steps);
    var b, v := src.bindings[id], Run(src, w, steps);
    if i in w.history && Serves(w.history[i], b.user, b.service)
       && j in v.history && j !in w.history && v.history[j].source == Some(BINDING_SOURCE) && v.history[j].sourceId == Some(id) {
      NewCopyFollowsSource(src, t.services.Keys, w, v, j, id);
      OnlyEngagedAdd(src, w, steps, i, b.user, b.service, j);
    }
  }

  lemma NewCopyFollowsSource(src: Sources, first: set<Id>, w: World, v: World, j: Id, id: Id)
    requires NamesSound(src, first, w) && NamesSound(src, first, v) && id in src.bindings
    requires j in v.history && j !in w.history
    requires v.history[j].source == Some(BINDING_SOURCE) && v.history[j].sourceId == Some(id)
    ensures IsMigrated(v.history[j]) && Serves(v.history[j], src.bindings[id].user, src.bindings[id].service)
  {
    assert j !in first && j !in v.others;
    CopiesFollowTheirSource(src, v.history, v.basis, j);
  }

  // ---- an engaged replica on its own ----

  predicate IsFrom(s: Service, id: Id) {
    s.source == Some(BINDING_SOURCE) && s.sourceId == Some(id)
  }

  /** A service from the binding has been inserted in between. */
  ghost predicate Adds(w: World, v: World, id: Id) {
    exists j :: j in v.history && j !in w.history && IsFrom(v.history[j], id)
  }

  /** The key and the service are not refused, and there is a free name. */
  predicate CanFinish(src: Sources, t: Tables, task: Task)
    requires task.Looked? || task.Keyless? || task.Resolved? || task.EndpointIn? || task.KeyIn?
    requires task.id in src.bindings
  {
    match task
    case KeyIn(id, slug, _, _, _) => !Refused(src, t, id, slug)
    case EndpointIn(id, slug, _, _) => !KeyFrom(t, BINDING_SOURCE, id) && !Refused(src, t, id, slug)
    case Resolved(id, slug, _) => !KeyFrom(t, BINDING_SOURCE, id) && !Refused(src, t, id, slug)
    case _ =>
      && !KeyFrom(t, BINDING_SOURCE, task.id) && !ServiceFrom(t, BINDING_SOURCE, task.id)
      && ResolvedTask(src, t, task.id).Some?
  }

  /** The steps the task still takes. */
  function StepsLeft(task: Task): nat {
    match task
    case KeyIn(_, _, _, _, _) => 1
    case EndpointIn(_, _, _, _) => 2
    case Resolved(_, _, _) => 3
    case Keyless(_) => 4
    case Looked(_) => 5
    case _ => 0
  }

  function Alone(src: Sources, w: World, r: ReplicaId, n: nat): World
    decreases n, w
  {
    if n == 0 then w else Alone(src, Do(src, w, Advance(r, false)), r, n - 1)
  }

  lemma {:induction false} IdleReplicaAddsNothing(src: Sources, w: World, r: ReplicaId, n: nat)
    requires r !in w.pending
    ensures Alone(src, w, r, n) == w
    decreases n
  {
    if n > 0 {
      IdleReplicaAddsNothing(src, w, r, n - 1);
    }
  }

  /** What a turn before the last leads to. */
  ghost predicate LeadsOn(src: Sources, t: Tables, task: Task, u: Tables, next: Option<Task>)
    requires StepsLeft(task) > 0 && task.id in src.bindings
  {
    && u.services == t.services
    && match next
       case None => !CanFinish(src, t, task)
       case Some(goal) =>
         && StepsLeft(goal) > 0 && StepsLeft(goal) == StepsLeft(task) - 1 && goal.id == task.id
         && (CanFinish(src, u, goal) <==> CanFinish(src, t, task))
  }

  lemma LookUpLeadsOn(src: Sources, h: map<Id, Service>, t: Tables, task: Task)
    requires Known(src, h, task) && (task.Looked? || task.Keyless?)
    ensures var turn := TurnOf(src, h, t, task, false);
      turn.effect == NoWrite && LeadsOn(src, t, task, t, turn.next) && (turn.next.Some? ==> Known(src, h, turn.next.value))
  {
    if task.Keyless? && ResolvedTask(src, t, task.id).Some? {
      var b := src.bindings[task.id];
      ResolvedSlugIsFree(t, b.user, src.catalog[b.service].slug);
    }
  }

  lemma InsertLeadsOn(src: Sources, h: map<Id, Service>, t: Tables, task: Task)
    requires Known(src, h, task) && (task.Resolved? || task.EndpointIn?)
    ensures var turn := TurnOf(src, h, t, task, false);
      && !AddsService(turn.effect) && LeadsOn(src, t, task, After(t, turn.effect), turn.next)
      && (turn.next.Some? ==> Known(src, h, turn.next.value))
  {
    if task.Resolved? {
      EndpointKeepsGuards(src, t, DraftWith(src, task.id, task.slug), task.id);
    }
  }

  lemma EndpointKeepsGuards(src: Sources, t: Tables, d: Draft, id: Id)
    ensures var u := After(t, NewEndpoint(d));
      && u.services == t.services && (KeyFrom(u, BINDING_SOURCE, id) <==> KeyFrom(t, BINDING_SOURCE, id))
      && (ServiceFrom(u, BINDING_SOURCE, id) <==> ServiceFrom(t, BINDING_SOURCE, id))
  {
  }

  /** Before the last step nothing is filed, and no step decides otherwise than the guards do. */
  lemma StepTowardsService(src: Sources, w: World, r: ReplicaId)
    requires r in w.pending && Known(src, w.history, w.pending[r]) && StepsLeft(w.pending[r]) > 1
    ensures var v := Do(src, w, Advance(r, false));
      && v.history == w.history
      && LeadsOn(src, w.tables, w.pending[r], v.tables, if r in v.pending then Some(v.pending[r]) else None)
      && (r in v.pending ==> Known(src, v.history, v.pending[r]))
  {
    if w.pending[r].Looked? || w.pending[r].Keyless? {
      LookUpLeadsOn(src, w.history, w.tables, w.pending[r]);
    } else {
      InsertLeadsOn(src, w.history, w.tables, w.pending[r]);
    }
  }

  lemma LastStepAdds(src: Sources, w: World, r: ReplicaId)
    requires Listed(w) && r in w.pending && Known(src, w.history, w.pending[r]) && w.pending[r].KeyIn?
    ensures Adds(w, Do(src, w, Advance(r, false)), w.pending[r].id) <==> CanFinish(src, w.tables, w.pending[r])
  {
    var task, v := w.pending[r], Do(src, w, Advance(r, false));
    if CanFinish(src, w.tables, task) {
      assert w.tables.next in v.history && IsFrom(v.history[w.tables.next], task.id);
    }
  }

  /** From any world of a run: an engaged replica that nobody disturbs copies its binding, for
      the first time or again, if and only if no key and no service of the binding is left and
      its name is free. */
  lemma {:induction false} EngagedCopiesExactly(src: Sources, w: World, r: ReplicaId, user: Id, c: Id)
    requires Listed(w) && r in w.pending && Known(src, w.history, w.pending[r]) && Engaged(src, w.pending[r], user, c)
    ensures Adds(w, Alone(src, w, r, StepsLeft(w.pending[r])), w.pending[r].id) <==> CanFinish(src, w.tables, w.pending[r])
    decreases StepsLeft(w.pending[r])
  {
    var task, v, n := w.pending[r], Do(src, w, Advance(r, false)), StepsLeft(w.pending[r]);
    assert Alone(src, w, r, n) == Alone(src, v, r, n - 1);
    if task.KeyIn? {
      LastStepAdds(src, w, r);
      assert Alone(src, v, r, 0) == v;
    } else {
      StepIsListed(src, w, Advance(r, false));
      StepTowardsService(src, w, r);
      if r in v.pending {
        EngagedCopiesExactly(src, v, r, user, c);
      } else {
        IdleReplicaAddsNothing(src, v, r, n - 1);
      }
    }
  }
}
