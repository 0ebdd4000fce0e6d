/** Services in every run of `BootReplicas`: each one that is gone was a duplicate and has a
    survivor, so that a user who was served once stays served, and the unique indexes hold. */
module BootServices {
  import opened Options
  import opened UserTables
  import opened Cleanup
  import opened Copies
  import opened Bindings
  import opened BootReplicas
  import Replicas
  import Slugs

  ghost predicate Remembers(h: map<Id, Service>, services: map<Id, Service>) {
    forall i :: i in services ==> i in h && SameButNode(services[i], h[i])
  }

  /** The row was made by a migration, and its base was there. */
  predicate WasDuplicate(h: map<Id, Service>, i: Id) {
    && i in h && Selected(h[i]) && Slugs.SuffixBase(h[i].slug).Some?
    && exists j :: j in h && IsBaseOf(h[j], h[i], Slugs.SuffixBase(h[i].slug).value)
  }

  ghost predicate DoomedWereDuplicates(h: map<Id, Service>, doomed: set<Id>) {
    forall i :: i in doomed ==> WasDuplicate(h, i)
  }

  predicate Cleans(task: Task) {
    task.ServiceNext? || task.EndpointNext? || task.KeyNext?
  }

  /** Only doomed rows are deleted, and their service goes first. */
  predicate Condemned(doomed: set<Id>, kept: set<Id>, task: Task) {
    Cleans(task) ==> task.row in doomed && (!task.ServiceNext? ==> task.row !in kept)
  }

  predicate TasksCondemned(doomed: set<Id>, kept: set<Id>, pending: map<ReplicaId, Task>) {
    forall r :: r in pending ==> Condemned(doomed, kept, pending[r])
  }

  /** Every row there ever was is there or doomed. */
  ghost predicate BooksSound(h: map<Id, Service>, t: Tables, doomed: set<Id>) {
    && Supplied(t) && (forall i :: i in h ==> i < t.next)
    && Remembers(h, t.services) && DoomedWereDuplicates(h, doomed)
    && h.Keys <= t.services.Keys + doomed
  }

  ghost predicate Listed(w: World) {
    BooksSound(w.history, w.tables, w.doomed) && TasksCondemned(w.doomed, w.tables.services.Keys, w.pending)
  }

  lemma StartIsListed(t: Tables)
    requires Supplied(t)
    ensures Listed(Start(t))
  {
  }

  // ---- one write ----

  lemma AttachKeepsRowIds(t: Tables, b: Binding)
    ensures Attach(t, b).services.Keys == t.services.Keys
  {
    var matches := Siblings(t, b.user, b.service);
    if matches != {} {
      var i := Least(matches);
      assert i in matches;
    }
  }

  lemma DuplicatesLast(h: map<Id, Service>, k: map<Id, Service>, doomed: set<Id>)
    requires DoomedWereDuplicates(h, doomed) && forall j :: j in h ==> j in k && k[j] == h[j]
    ensures DoomedWereDuplicates(k, doomed)
  {
    forall i | i in doomed
      ensures WasDuplicate(k, i)
    {
      assert WasDuplicate(h, i);
      var j :| j in h && IsBaseOf(h[j], h[i], Slugs.SuffixBase(h[i].slug).value);
      assert IsBaseOf(k[j], k[i], Slugs.SuffixBase(k[i].slug).value);
    }
  }

  lemma WriteKeepsSupplied(h: map<Id, Service>, t: Tables, e: Effect)
    requires Supplied(t) && (forall i :: i in h ==> i < t.next)
    ensures Supplied(After(t, e)) && forall i :: i in Recorded(h, t, e) ==> i < After(t, e).next
  {
    if e.SetNode? {
      AttachKeepsSiblings(t, e.binding);
    }
  }

  lemma WriteIsRemembered(h: map<Id, Service>, t: Tables, e: Effect)
    requires Remembers(h, t.services)
    ensures Remembers(Recorded(h, t, e), After(t, e).services)
  {
    if e.SetNode? {
      AttachKeepsRowIds(t, e.binding);
    }
  }

  /** Rows stay in the books, and services only go one at a time. */
  lemma WriteKeepsCover(h: map<Id, Service>, t: Tables, e: Effect, doomed: set<Id>)
    requires (forall i :: i in h ==> i < t.next) && h.Keys <= t.services.Keys + doomed
    requires e.DeleteService? ==> e.id in doomed
    ensures Recorded(h, t, e).Keys <= After(t, e).services.Keys + doomed
    ensures forall i :: i in h ==> i in Recorded(h, t, e) && Recorded(h, t, e)[i] == h[i]
  {
    if e.SetNode? {
      AttachKeepsRowIds(t, e.binding);
    }
  }

  lemma WriteKeepsBooks(h: map<Id, Service>, t: Tables, e: Effect, doomed: set<Id>)
    requires BooksSound(h, t, doomed) && (e.DeleteService? ==> e.id in doomed)
    ensures BooksSound(Recorded(h, t, e), After(t, e), doomed)
  {
    WriteKeepsSupplied(h, t, e);
    WriteIsRemembered(h, t, e);
    WriteKeepsCover(h, t, e, doomed);
    DuplicatesLast(h, Recorded(h, t, e), doomed);
  }

  lemma ServiceIdsAfter(h: map<Id, Service>, t: Tables, e: Effect)
    requires (forall i :: i in h ==> i < t.next) && Remembers(h, t.services)
    ensures t.services.Keys <= h.Keys
    ensures After(t, e).services.Keys <= t.services.Keys + if AddsService(e) then {FiledId(t, e)} else {}
    ensures AddsService(e) ==> FiledId(t, e) !in h
  {
    if e.SetNode? {
      AttachKeepsRowIds(t, e.binding);
    }
  }

  lemma WriteKeepsCondemned(h: map<Id, Service>, t: Tables, e: Effect, doomed: set<Id>, pending: map<ReplicaId, Task>)
    requires BooksSound(h, t, doomed) && TasksCondemned(doomed, t.services.Keys, pending)
    ensures TasksCondemned(doomed, After(t, e).services.Keys, pending)
  {
    ServiceIdsAfter(h, t, e);
    forall r | r in pending && Cleans(pending[r])
      ensures pending[r].row in h && pending[r].row in doomed
    {
      assert Condemned(doomed, t.services.Keys, pending[r]);
      assert WasDuplicate(h, pending[r].row);
    }
  }

  // ---- one step ----

  lemma WriteIsListed(w: World, e: Effect)
    requires Listed(w) && (e.DeleteService? ==> e.id in w.doomed)
    ensures BooksSound(Recorded(w.history, w.tables, e), After(w.tables, e), w.doomed)
    ensures TasksCondemned(w.doomed, After(w.tables, e).services.Keys, w.pending)
  {
    WriteKeepsBooks(w.history, w.tables, e, w.doomed);
    WriteKeepsCondemned(w.history, w.tables, e, w.doomed, w.pending);
  }

  lemma CondemnedWith(doomed: set<Id>, kept: set<Id>, pending: map<ReplicaId, Task>, r: ReplicaId, next: Option<Task>)
    requires TasksCondemned(doomed, kept, pending) && (next.Some? ==> Condemned(doomed, kept, next.value))
    ensures TasksCondemned(doomed, kept, Next(pending, r, next))
  {
  }

  /** A cleanup deletes doomed rows, service first; copies delete no service. */
  lemma TurnIsCondemned(src: Sources, h: map<Id, Service>, t: Tables, doomed: set<Id>, task: Task, fails: bool)
    requires Known(src, h, task) && Condemned(doomed, t.services.Keys, task)
    ensures var turn := TurnOf(src, h, t, task, fails);
      && (turn.effect.DeleteService? ==> turn.effect.id in doomed)
      && (turn.next.Some? ==> Condemned(doomed, After(t, turn.effect).services.Keys, turn.next.value))
  {
  }

  lemma AdvanceIsListed(src: Sources, w: World, r: ReplicaId, fails: bool)
    requires Listed(w) && r in w.pending && Known(src, w.history, w.pending[r])
    ensures Listed(Do(src, w, Advance(r, fails)))
  {
    var turn := TurnOf(src, w.history, w.tables, w.pending[r], fails);
    TurnIsCondemned(src, w.history, w.tables, w.doomed, w.pending[r], fails);
    WriteIsListed(w, turn.effect);
    CondemnedWith(w.doomed, After(w.tables, turn.effect).services.Keys, w.pending, r, turn.next);
  }

  lemma RemovableWasDuplicate(h: map<Id, Service>, t: Tables, i: Id)
    requires Remembers(h, t.services) && i in h && Selected(h[i]) && Removable(t, h[i])
    ensures WasDuplicate(h, i)
  {
    var s := h[i];
    var j :| j in t.services && IsBaseOf(t.services[j], s, Slugs.SuffixBase(s.slug).value);
    assert IsBaseOf(h[j], s, Slugs.SuffixBase(s.slug).value);
  }

  lemma CheckIsListed(w: World, r: ReplicaId, i: Id)
    requires Listed(w) && WasDuplicate(w.history, i)
    ensures BooksSound(w.history, w.tables, w.doomed + {i})
    ensures TasksCondemned(w.doomed + {i}, w.tables.services.Keys, w.pending[r := ServiceNext(i)])
  {
  }

  /** All other steps attach, insert a whole triple, or write nothing; what they do next
      deletes nothing. */
  lemma OtherStepsWrite(src: Sources, w: World, step: Step)
    requires !step.Advance? && !step.Check?
    ensures var v := Do(src, w, step);
      || (v.tables == w.tables && v.history == w.history)
      || (step.Begin? && step.id in src.bindings && v.tables == Attach(w.tables, src.bindings[step.id]) && v.history == w.history)
      || (step.Create? && !BreaksIndex(w.tables, step.draft)
          && v.tables == Insert(w.tables, step.draft) && v.history == Recorded(w.history, w.tables, NewTriple(step.draft)))
    ensures var v := Do(src, w, step);
      v.doomed == w.doomed && forall q :: q in v.pending ==> (q in w.pending && v.pending[q] == w.pending[q]) || !Cleans(v.pending[q])
  {
  }

  lemma OtherStepIsListed(src: Sources, w: World, step: Step)
    requires Listed(w) && !step.Advance? && !step.Check?
    ensures Listed(Do(src, w, step))
  {
    OtherStepsWrite(src, w, step);
    if step.Begin? && step.id in src.bindings {
      WriteIsListed(w, SetNode(src.bindings[step.id]));
    } else if step.Create? {
      WriteIsListed(w, NewTriple(step.draft));
    }
  }

  lemma StepIsListed(src: Sources, w: World, step: Step)
    requires Listed(w)
    ensures Listed(Do(src, w, step))
  {
    match step
    case Check(r, i) =>
      if i in w.history && Selected(w.history[i]) && Removable(w.tables, w.history[i]) {
        RemovableWasDuplicate(w.history, w.tables, i);
        CheckIsListed(w, r, i);
      }
    case Advance(r, fails) =>
      if r in w.pending && Known(src, w.history, w.pending[r]) {
        AdvanceIsListed(src, w, r, fails);
      }
    case _ => OtherStepIsListed(src, w, step);
  }

  // ---- every run ----

  lemma {:induction false} EveryRunIsListed(src: Sources, w: World, steps: seq<Step>)
    requires Listed(w)
    ensures Listed(Run(src, w, steps))
    decreases steps
  {
    if steps != [] {
      StepIsListed(src, w, steps[0]);
      EveryRunIsListed(src, Do(src, w, steps[0]), steps[1..]);
    }
  }

  /** Whatever the replicas deleted came from a migration and has a survivor: an active
      service of the same user and catalog entry under the slug with suffixes taken off. */
  lemma {:induction false} DeletedHaveSurvivors(w: World, i: Id)
    requires Listed(w) && i in w.history && i !in w.tables.services
    ensures IsMigrated(w.history[i]) && w.history[i].catalog.Some? && HasSurvivor(w.tables, w.history[i])
    decreases |w.history[i].slug|
  {
    var s := w.history[i];
    var base := Slugs.SuffixBase(s.slug).value;
    assert WasDuplicate(w.history, i);
    var j :| j in w.history && IsBaseOf(w.history[j], s, base);
    if j in w.tables.services {
      assert SameButNode(w.tables.services[j], w.history[j]);
      assert IsSurvivorOf(w.tables.services[j], s);
    } else {
      DeletedHaveSurvivors(w, j);
      var k :| k in w.tables.services && IsSurvivorOf(w.tables.services[k], w.history[j]);
      assert IsSurvivorOf(w.tables.services[k], s);
    }
  }

  /** For all interleavings of the migrations of any number of replicas, with crashes and
      other writers in between: every service that is gone, old or new, has left a survivor,
      as in a pass of a single replica. */
  lemma EveryRunKeepsSurvivors(src: Sources, t: Tables, steps: seq<Step>, i: Id)
    requires Supplied(t)
    ensures var w := Run(src, Start(t), steps);
      && (i in t.services ==> i in w.history && w.history[i] == t.services[i])
      && (i in w.history && i !in w.tables.services ==> IsMigrated(w.history[i]) && HasSurvivor(w.tables, w.history[i]))
  {
    StartIsListed(t);
    EveryRunIsListed(src, Start(t), steps);
    if i in t.services {
      HistoryLasts(src, Start(t), steps, i);
    }
    var w := Run(src, Start(t), steps);
    if i in w.history && i !in w.tables.services {
      DeletedHaveSurvivors(w, i);
    }
  }

  lemma StepKeepsHistory(src: Sources, w: World, step: Step)
    requires forall i :: i in w.history ==> i < w.tables.next
    ensures forall i :: i in w.history ==> i in Do(src, w, step).history && Do(src, w, step).history[i] == w.history[i]
  {
  }

  lemma {:induction false} HistoryLasts(src: Sources, w: World, steps: seq<Step>, i: Id)
    requires Listed(w) && i in w.history
    ensures i in Run(src, w, steps).history && Run(src, w, steps).history[i] == w.history[i]
    decreases steps
  {
    if steps != [] {
      StepIsListed(src, w, steps[0]);
      StepKeepsHistory(src, w, steps[0]);
      HistoryLasts(src, Do(src, w, steps[0]), steps[1..], i);
    }
  }

  /** A user who ever had an active service for a catalog entry has one now. */
  lemma OnceServedStaysServed(w: World, i: Id, user: Id, c: Id)
    requires Listed(w) && i in w.history && Serves(w.history[i], user, c)
    ensures Siblings(w.tables, user, c) != {}
  {
    if i in w.tables.services {
      assert SameButNode(w.tables.services[i], w.history[i]);
      assert i in Siblings(w.tables, user, c);
    } else {
      DeletedHaveSurvivors(w, i);
      var k :| k in w.tables.services && IsSurvivorOf(w.tables.services[k], w.history[i]);
      assert k in Siblings(w.tables, user, c);
    }
  }

  // ---- unique indexes ----

  /** The indexes allow the row. */
  predicate Allowed(t: Tables, e: Effect) {
    match e
    case NewTriple(d) => !BreaksIndex(t, d)
    case NewKey(d) => !KeyFrom(t, d.source, d.sourceId)
    case NewService(d, _, _) => !ServiceFrom(t, d.source, d.sourceId) && d.slug !in ActiveSlugs(t, d.user)
    case _ => true
  }

  lemma NewServiceKeepsSlugs(t: Tables, i: Id, s: Service)
    requires Replicas.DistinctSlugs(t) && s.slug !in ActiveSlugs(t, s.user)
    ensures Replicas.DistinctSlugs(Apply(t, PutService(i, s)))
  {
    forall j | j in t.services && t.services[j].active && t.services[j].user == s.user
      ensures t.services[j].slug != s.slug
    {
      assert t.services[j].slug in ActiveSlugs(t, s.user);
    }
  }

  /** One of the tables gets a row whose source no other row has. */
  lemma NewRowKeepsOrigins(t: Tables, i: Id, k: ApiKey, s: Service)
    requires Replicas.DistinctOrigins(t)
    requires k.source.Some? && k.sourceId.Some? && s.source.Some? && s.sourceId.Some?
    ensures !KeyFrom(t, k.source.value, k.sourceId.value) ==> Replicas.DistinctOrigins(Apply(t, PutKey(i, k)))
    ensures !ServiceFrom(t, s.source.value, s.sourceId.value) ==> Replicas.DistinctOrigins(Apply(t, PutService(i, s)))
  {
  }

  /** Node and priority are in no index. */
  lemma AttachKeepsDistinct(t: Tables, b: Binding)
    ensures Replicas.DistinctOrigins(t) ==> Replicas.DistinctOrigins(Attach(t, b))
    ensures Replicas.DistinctSlugs(t) ==> Replicas.DistinctSlugs(Attach(t, b))
  {
    AttachKeepsSiblings(t, b);
    AttachKeepsRowIds(t, b);
  }

  lemma WriteKeepsDistinct(t: Tables, e: Effect)
    requires Supplied(t) && Allowed(t, e)
    ensures Replicas.DistinctOrigins(t) ==> Replicas.DistinctOrigins(After(t, e))
    ensures Replicas.DistinctSlugs(t) ==> Replicas.DistinctSlugs(After(t, e))
  {
    match e
    case SetNode(b) => AttachKeepsDistinct(t, b);
    case NewTriple(d) => Replicas.InsertKeepsDistinct(t, d);
    case NewKey(d) =>
      if Replicas.DistinctOrigins(t) {
        NewRowKeepsOrigins(t, t.next, DraftKey(d), DraftService(d, 0, 0));
      }
    case NewService(d, endpoint, key) =>
      if Replicas.DistinctOrigins(t) {
        NewRowKeepsOrigins(t, t.next, DraftKey(d), DraftService(d, endpoint, key));
      }
      if Replicas.DistinctSlugs(t) {
        NewServiceKeepsSlugs(t, t.next, DraftService(d, endpoint, key));
      }
    case _ =>
  }

  lemma TurnKeepsDistinct(src: Sources, h: map<Id, Service>, t: Tables, task: Task, fails: bool)
    requires Supplied(t) && Known(src, h, task)
    ensures var u := After(t, TurnOf(src, h, t, task, fails).effect);
      && (Replicas.DistinctOrigins(t) ==> Replicas.DistinctOrigins(u))
      && (Replicas.DistinctSlugs(t) ==> Replicas.DistinctSlugs(u))
  {
    var e := TurnOf(src, h, t, task, fails).effect;
    assert Allowed(t, e);
    WriteKeepsDistinct(t, e);
  }

  lemma AdvanceKeepsDistinct(src: Sources, w: World, r: ReplicaId, fails: bool)
    requires Supplied(w.tables)
    ensures var u := Do(src, w, Advance(r, fails)).tables;
      && (Replicas.DistinctOrigins(w.tables) ==> Replicas.DistinctOrigins(u))
      && (Replicas.DistinctSlugs(w.tables) ==> Replicas.DistinctSlugs(u))
  {
    if r in w.pending && Known(src, w.history, w.pending[r]) {
      TurnKeepsDistinct(src, w.history, w.tables, w.pending[r], fails);
    }
  }

  lemma StepKeepsDistinct(src: Sources, w: World, step: Step)
    requires Supplied(w.tables)
    ensures Replicas.DistinctOrigins(w.tables) ==> Replicas.DistinctOrigins(Do(src, w, step).tables)
    ensures Replicas.DistinctSlugs(w.tables) ==> Replicas.DistinctSlugs(Do(src, w, step).tables)
  {
    if step.Advance? {
      AdvanceKeepsDistinct(src, w, step.replica, step.fails);
    } else if !step.Check? {
      OtherStepsWrite(src, w, step);
      if step.Begin? && step.id in src.bindings {
        AttachKeepsDistinct(w.tables, src.bindings[step.id]);
      } else if step.Create? && !BreaksIndex(w.tables, step.draft) {
        Replicas.InsertKeepsDistinct(w.tables, step.draft);
      }
    }
  }

  lemma StepKeepsSupplied(src: Sources, w: World, step: Step)
    requires Supplied(w.tables)
    ensures Supplied(Do(src, w, step).tables)
  {
    match step
    case Advance(r, fails) =>
      if r in w.pending && Known(src, w.history, w.pending[r]) {
        WriteKeepsSupplied(map[], w.tables, TurnOf(src, w.history, w.tables, w.pending[r], fails).effect);
      }
    case Begin(_, id) =>
      if id in src.bindings {
        AttachKeepsSiblings(w.tables, src.bindings[id]);
      }
    case Create(d) => InsertGrows(w.tables, d);
    case _ =>
  }

  /** At no time do two keys or two services have the same source row, and active slugs stay
      unique. */
  lemma {:induction false} EveryRunKeepsDistinct(src: Sources, w: World, steps: seq<Step>)
    requires Supplied(w.tables)
    ensures Replicas.DistinctOrigins(w.tables) ==> Replicas.DistinctOrigins(Run(src, w, steps).tables)
    ensures Replicas.DistinctSlugs(w.tables) ==> Replicas.DistinctSlugs(Run(src, w, steps).tables)
    decreases steps
  {
    if steps != [] {
      StepKeepsSupplied(src, w, steps[0]);
      StepKeepsDistinct(src, w, steps[0]);
      EveryRunKeepsDistinct(src, Do(src, w, steps[0]), steps[1..]);
    }
  }
}
