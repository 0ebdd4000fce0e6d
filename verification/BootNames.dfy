/** Names in every run of `BootReplicas`: what a resolved slug says about the services that
    were there, and when a binding copy gives a pair of user and catalog entry a second
    active service. */
module BootNames {
  import opened Options
  import opened UserTables
  import opened Copies
  import opened Bindings
  import opened BootReplicas
  import opened BootServices
  import Replicas
  import Slugs

  // ---- what a resolved slug says ----

  ghost predicate InUse(h: map<Id, Service>, seen: set<Id>, name: string) {
    exists d :: d in seen && d in h && h[d].slug == name
  }

  ghost predicate FrontedAt(h: map<Id, Service>, seen: set<Id>, base: string, slug: string, n: nat) {
    slug == Slugs.Candidate(base, n) && forall m: nat :: 1 <= m < n ==> InUse(h, seen, Slugs.Candidate(base, m))
  }

  /** The slug is a candidate, and those in front of it were in use among what was seen. */
  ghost predicate Fronted(h: map<Id, Service>, seen: set<Id>, base: string, slug: string) {
    exists n: nat :: 1 <= n <= Slugs.LAST_SUFFIX && FrontedAt(h, seen, base, slug, n)
  }

  /** User and catalog entry that a copy of a source row gets. */
  function PairOf(src: Sources, source: string, id: Id): Option<(Id, Option<Id>)> {
    if source == TOKEN_SOURCE && id in src.tokens then
      Some((src.tokens[id].user, TargetEntry(src, src.tokens[id].provider)))
    else if source == CONNECTION_SOURCE && id in src.connections then
      Some((src.connections[id].user, Some(src.connections[id].service)))
    else if source == BINDING_SOURCE && id in src.bindings then
      Some((src.bindings[id].user, Some(src.bindings[id].service)))
    else None
  }

  predicate FollowsSource(src: Sources, s: Service) {
    s.active && s.source.Some? && s.sourceId.Some? && PairOf(src, s.source.value, s.sourceId.value) == Some((s.user, s.catalog))
  }

  ghost predicate Backed(src: Sources, h: map<Id, Service>, s: Service, seen: set<Id>) {
    && FollowsSource(src, s)
    && (forall d :: d in seen ==> d in h && h[d].active && h[d].user == s.user)
    && (s.catalog.Some? ==> s.catalog.value in src.catalog && Fronted(h, seen, src.catalog[s.catalog.value].slug, s.slug))
  }

  /** Active services of the user that were not seen came later. */
  ghost predicate Accounted(h: map<Id, Service>, kept: set<Id>, known: set<Id>, user: Id) {
    forall i :: i in kept && i in h && h[i].active && h[i].user == user ==> i in known
  }

  predicate Named(task: Task) {
    task.Drafted? || task.Resolved? || task.EndpointIn? || task.KeyIn?
  }

  /** The service a task is going to insert; its endpoint and key do not matter here. */
  function Planned(src: Sources, h: map<Id, Service>, task: Task): Service
    requires Named(task) && Known(src, h, task)
  {
    DraftService(if task.Drafted? then task.draft else DraftWith(src, task.id, task.slug), 0, 0)
  }

  ghost predicate TaskNamed(src: Sources, h: map<Id, Service>, kept: set<Id>, later: set<Id>, task: Task) {
    Named(task) ==>
      && Known(src, h, task)
      && Backed(src, h, Planned(src, h, task), task.seen)
      && Accounted(h, kept, task.seen + later, Planned(src, h, task).user)
  }

  ghost predicate TasksNamed(
      src: Sources, h: map<Id, Service>, kept: set<Id>, later: set<Id>, pending: map<ReplicaId, Task>) {
    forall r :: r in pending ==> TaskNamed(src, h, kept, later, pending[r])
  }

  ghost predicate BasisNamed(src: Sources, h: map<Id, Service>, basis: map<Id, set<Id>>) {
    forall i :: i in basis ==> i in h && Backed(src, h, h[i], basis[i])
  }

  /** Every row ever filed is one of the first rows, a copy, or of another writer. */
  ghost predicate Filed(h: map<Id, Service>, first: set<Id>, basis: set<Id>, others: set<Id>) {
    && first !! basis && others !! basis
    && h.Keys <= first + basis + others
    && forall i :: i in others && i in h ==> !IsMigrated(h[i])
  }

  ghost predicate NamesSound(src: Sources, first: set<Id>, w: World) {
    && TasksNamed(src, w.history, w.tables.services.Keys, w.basis.Keys + w.others, w.pending)
    && BasisNamed(src, w.history, w.basis)
    && first <= w.history.Keys && w.others <= w.history.Keys
    && Filed(w.history, first, w.basis.Keys, w.others)
  }

  lemma StartIsNamed(src: Sources, t: Tables)
    ensures NamesSound(src, t.services.Keys, Start(t))
  {
  }

  // ---- names as the books grow ----

  ghost predicate Extends(h: map<Id, Service>, k: map<Id, Service>) {
    forall i :: i in h ==> i in k && k[i] == h[i]
  }

  lemma FrontedLasts(h: map<Id, Service>, k: map<Id, Service>, seen: set<Id>, base: string, slug: string)
    requires Extends(h, k) && Fronted(h, seen, base, slug)
    ensures Fronted(k, seen, base, slug)
  {
    var n: nat :| 1 <= n <= Slugs.LAST_SUFFIX && FrontedAt(h, seen, base, slug, n);
    forall m: nat | 1 <= m < n
      ensures InUse(k, seen, Slugs.Candidate(base, m))
    {
      assert InUse(h, seen, Slugs.Candidate(base, m));
      var d :| d in seen && d in h && h[d].slug == Slugs.Candidate(base, m);
      assert k[d].slug == Slugs.Candidate(base, m);
    }
    assert FrontedAt(k, seen, base, slug, n);
  }

  lemma BackedLasts(src: Sources, h: map<Id, Service>, k: map<Id, Service>, s: Service, seen: set<Id>)
    requires Extends(h, k) && Backed(src, h, s, seen)
    ensures Backed(src, k, s, seen)
  {
    if s.catalog.Some? {
      FrontedLasts(h, k, seen, src.catalog[s.catalog.value].slug, s.slug);
    }
  }

  lemma TaskNamedLasts(
      src: Sources, h: map<Id, Service>, kept: set<Id>, later: set<Id>,
      k: map<Id, Service>, kept2: set<Id>, later2: set<Id>, task: Task)
    requires TaskNamed(src, h, kept, later, task)
    requires Extends(h, k) && kept <= h.Keys && kept2 <= kept + (later2 - later) && later <= later2
    ensures TaskNamed(src, k, kept2, later2, task)
  {
    if Named(task) {
      BackedLasts(src, h, k, Planned(src, h, task), task.seen);
    }
  }

  lemma BasisNamedLasts(src: Sources, h: map<Id, Service>, k: map<Id, Service>, basis: map<Id, set<Id>>)
    requires Extends(h, k) && BasisNamed(src, h, basis)
    ensures BasisNamed(src, k, basis)
  {
    forall i | i in basis
      ensures Backed(src, k, k[i], basis[i])
    {
      BackedLasts(src, h, k, h[i], basis[i]);
    }
  }

  // ---- a resolution ----

  lemma ResolvedIsFronted(t: Tables, h: map<Id, Service>, user: Id, base: string)
    requires Remembers(h, t.services) && ResolveSlug(t, user, base).Some?
    ensures Fronted(h, Seen(t, user), base, ResolveSlug(t, user, base).value)
  {
    var slug := ResolveSlug(t, user, base).value;
    var used := ActiveSlugs(t, user) * Slugs.Candidates(base);
    Slugs.FirstFreeIsSoundAndMinimal(base, used, slug);
    var n :| Slugs.IsFirstFree(base, used, n) && slug == Slugs.Candidate(base, n);
    forall m: nat | 1 <= m < n
      ensures InUse(h, Seen(t, user), Slugs.Candidate(base, m))
    {
      assert Slugs.Candidate(base, m) in ActiveSlugs(t, user);
      var d :| d in t.services && t.services[d].active && t.services[d].user == user && t.services[d].slug == Slugs.Candidate(base, m);
      assert SameButNode(t.services[d], h[d]);
    }
    assert FrontedAt(h, Seen(t, user), base, slug, n);
  }

  /** A slug resolved now is backed by what is there now, and nothing came later yet. */
  lemma ResolutionIsBacked(src: Sources, t: Tables, h: map<Id, Service>, s: Service, base: string, later: set<Id>)
    requires Remembers(h, t.services) && FollowsSource(src, s)
    requires ResolveSlug(t, s.user, base) == Some(s.slug)
    requires s.catalog.Some? ==> s.catalog.value in src.catalog && src.catalog[s.catalog.value].slug == base
    ensures Backed(src, h, s, Seen(t, s.user))
    ensures Accounted(h, t.services.Keys, Seen(t, s.user) + later, s.user)
  {
    ResolvedIsFronted(t, h, s.user, base);
    forall i | i in t.services
      ensures SameButNode(t.services[i], h[i])
    {
    }
  }

  lemma TokenDraftFollows(src: Sources, t: Tables, id: Id)
    requires id in src.tokens && DraftToken(src, t, id).Some?
    ensures var d := DraftToken(src, t, id).value;
      && FollowsSource(src, DraftService(d, 0, 0))
      && ResolveSlug(t, d.user, BaseSlug(src, src.tokens[id].provider)) == Some(d.slug)
      && (d.catalog.Some? ==> d.catalog.value in src.catalog && src.catalog[d.catalog.value].slug == BaseSlug(src, src.tokens[id].provider))
  {
  }

  lemma ConnectionDraftFollows(src: Sources, t: Tables, id: Id)
    requires id in src.connections && DraftConnection(src, t, id).Some?
    ensures var d := DraftConnection(src, t, id).value;
      && FollowsSource(src, DraftService(d, 0, 0))
      && d.catalog.Some? && d.catalog.value in src.catalog
      && ResolveSlug(t, d.user, src.catalog[d.catalog.value].slug) == Some(d.slug)
  {
  }

  lemma ReadIsNamed(src: Sources, t: Tables, h: map<Id, Service>, later: set<Id>, step: Step)
    requires Remembers(h, t.services)
    requires (step.ReadToken? && step.id in src.tokens) || (step.ReadConnection? && step.id in src.connections)
    ensures var d := if step.ReadToken? then DraftToken(src, t, step.id) else DraftConnection(src, t, step.id);
      d.Some? ==> TaskNamed(src, h, t.services.Keys, later, DraftedTask(t, d).value)
  {
    if step.ReadToken? {
      if DraftToken(src, t, step.id).Some? {
        var d := DraftToken(src, t, step.id).value;
        TokenDraftFollows(src, t, step.id);
        ResolutionIsBacked(src, t, h, DraftService(d, 0, 0), BaseSlug(src, src.tokens[step.id].provider), later);
      }
    } else if DraftConnection(src, t, step.id).Some? {
      var d := DraftConnection(src, t, step.id).value;
      ConnectionDraftFollows(src, t, step.id);
      ResolutionIsBacked(src, t, h, DraftService(d, 0, 0), src.catalog[d.catalog.value].slug, later);
    }
  }

  lemma ResolvedTaskIsNamed(src: Sources, t: Tables, h: map<Id, Service>, later: set<Id>, id: Id)
    requires Remembers(h, t.services) && id in src.bindings && ResolvedTask(src, t, id).Some?
    ensures TaskNamed(src, h, t.services.Keys, later, ResolvedTask(src, t, id).value)
  {
    var b, task := src.bindings[id], ResolvedTask(src, t, id).value;
    ResolutionIsBacked(src, t, h, Planned(src, h, task), src.catalog[b.service].slug, later);
  }

  // ---- one step ----

  lemma TasksNamedWith(
      src: Sources, h: map<Id, Service>, kept: set<Id>, later: set<Id>, pending: map<ReplicaId, Task>, r: ReplicaId, next: Option<Task>)
    requires TasksNamed(src, h, kept, later, pending)
    requires next.Some? ==> TaskNamed(src, h, kept, later, next.value)
    ensures TasksNamed(src, h, kept, later, Next(pending, r, next))
  {
  }

  /** A turn keeps the name it has, resolves one, or is done with it. */
  lemma TurnIsNamed(src: Sources, h: map<Id, Service>, t: Tables, later: set<Id>, task: Task, fails: bool)
    requires Remembers(h, t.services) && Known(src, h, task) && TaskNamed(src, h, t.services.Keys, later, task)
    ensures var turn := TurnOf(src, h, t, task, fails);
      turn.next.Some? ==> TaskNamed(src, h, t.services.Keys, later, turn.next.value)
  {
    if task.Keyless? && ResolvedTask(src, t, task.id).Some? {
      ResolvedTaskIsNamed(src, t, h, later, task.id);
    }
  }

  /** The service that a turn inserts is the planned one. */
  lemma FiledAsPlanned(src: Sources, h: map<Id, Service>, t: Tables, later: set<Id>, task: Task, fails: bool)
    requires Known(src, h, task) && TaskNamed(src, h, t.services.Keys, later, task)
    requires AddsService(TurnOf(src, h, t, task, fails).effect)
    ensures Named(task) && Backed(src, h, FiledRow(t, TurnOf(src, h, t, task, fails).effect), SeenBy(task))
  {
  }

  lemma BasisGrows(src: Sources, h: map<Id, Service>, basis: map<Id, set<Id>>, i: Id, s: Service, seen: set<Id>)
    requires BasisNamed(src, h, basis) && i !in h && Backed(src, h, s, seen)
    ensures BasisNamed(src, h[i := s], basis[i := seen])
  {
    BasisNamedLasts(src, h, h[i := s], basis);
    BackedLasts(src, h, h[i := s], s, seen);
  }

  lemma TasksNamedLast(
      src: Sources, h: map<Id, Service>, kept: set<Id>, later: set<Id>,
      k: map<Id, Service>, kept2: set<Id>, later2: set<Id>, pending: map<ReplicaId, Task>)
    requires TasksNamed(src, h, kept, later, pending)
    requires Extends(h, k) && kept <= h.Keys && kept2 <= kept + (later2 - later) && later <= later2
    ensures TasksNamed(src, k, kept2, later2, pending)
  {
    forall r | r in pending
      ensures TaskNamed(src, k, kept2, later2, pending[r])
    {
      TaskNamedLasts(src, h, kept, later, k, kept2, later2, pending[r]);
    }
  }

  /** A write without a new service leaves the names alone. */
  lemma PlainWriteIsNamed(src: Sources, first: set<Id>, w: World, t: Tables, pending: map<ReplicaId, Task>)
    requires NamesSound(src, first, w) && w.tables.services.Keys <= w.history.Keys && t.services.Keys <= w.tables.services.Keys
    requires TasksNamed(src, w.history, w.tables.services.Keys, w.basis.Keys + w.others, pending)
    ensures NamesSound(src, first, w.(tables := t, pending := pending))
  {
    var later := w.basis.Keys + w.others;
    TasksNamedLast(src, w.history, w.tables.services.Keys, later, w.history, t.services.Keys, later, pending);
  }

  /** A copy files its service with what it saw. */
  lemma CopyIsNamed(
      src: Sources, first: set<Id>, w: World, t: Tables, i: Id, s: Service, seen: set<Id>, pending: map<ReplicaId, Task>)
    requires NamesSound(src, first, w) && w.tables.services.Keys <= w.history.Keys && i !in w.history
    requires t.services.Keys <= w.tables.services.Keys + {i}
    requires TasksNamed(src, w.history, w.tables.services.Keys, w.basis.Keys + w.others, pending)
    requires Backed(src, w.history, s, seen)
    ensures NamesSound(src, first, World(t, w.history[i := s], w.doomed, w.basis[i := seen], w.others, pending))
  {
    var h, k, later, later2 := w.history, w.history[i := s], w.basis.Keys + w.others, w.basis[i := seen].Keys + w.others;
    TasksNamedLast(src, h, w.tables.services.Keys, later, k, t.services.Keys, later2, pending);
    BasisGrows(src, h, w.basis, i, s, seen);
  }

  lemma AdvanceIsNamed(src: Sources, first: set<Id>, w: World, r: ReplicaId, fails: bool)
    requires Listed(w) && NamesSound(src, first, w) && r in w.pending && Known(src, w.history, w.pending[r])
    ensures NamesSound(src, first, Do(src, w, Advance(r, fails)))
  {
    var h, t, task, later := w.history, w.tables, w.pending[r], w.basis.Keys + w.others;
    var turn := TurnOf(src, h, t, task, fails);
    TurnIsNamed(src, h, t, later, task, fails);
    TasksNamedWith(src, h, t.services.Keys, later, w.pending, r, turn.next);
    ServiceIdsAfter(h, t, turn.effect);
    if AddsService(turn.effect) {
      FiledAsPlanned(src, h, t, later, task, fails);
      CopyIsNamed(src, first, w, After(t, turn.effect), FiledId(t, turn.effect), FiledRow(t, turn.effect), SeenBy(task),
        Next(w.pending, r, turn.next));
    } else {
      PlainWriteIsNamed(src, first, w, After(t, turn.effect), Next(w.pending, r, turn.next));
    }
  }

  lemma CreateIsNamed(src: Sources, first: set<Id>, w: World, d: Draft)
    requires Listed(w) && NamesSound(src, first, w)
    ensures NamesSound(src, first, Do(src, w, Create(d)))
  {
    if !("migration_" <= d.source || BreaksIndex(w.tables, d)) {
      var t, e := w.tables, NewTriple(d);
      ServiceIdsAfter(w.history, t, e);
      OtherServiceIsNamed(src, first, w, Insert(t, d), FiledId(t, e), FiledRow(t, e));
    }
  }

  lemma OtherServiceIsNamed(src: Sources, first: set<Id>, w: World, t: Tables, i: Id, s: Service)
    requires NamesSound(src, first, w) && w.tables.services.Keys <= w.history.Keys && i !in w.history && !IsMigrated(s)
    requires t.services.Keys <= w.tables.services.Keys + {i}
    ensures NamesSound(src, first, w.(tables := t, history := w.history[i := s], others := w.others + {i}))
  {
    var later := w.basis.Keys + w.others;
    TasksNamedLast(src, w.history, w.tables.services.Keys, later, w.history[i := s], t.services.Keys, later + {i}, w.pending);
    BasisNamedLasts(src, w.history, w.history[i := s], w.basis);
    assert w.basis.Keys + (w.others + {i}) == later + {i};
  }

  lemma ReadStepIsNamed(src: Sources, first: set<Id>, w: World, step: Step)
    requires Listed(w) && NamesSound(src, first, w) && (step.ReadToken? || step.ReadConnection?)
    ensures NamesSound(src, first, Do(src, w, step))
  {
    if (step.ReadToken? && step.id in src.tokens) || (step.ReadConnection? && step.id in src.connections) {
      var later := w.basis.Keys + w.others;
      var d := if step.ReadToken? then DraftToken(src, w.tables, step.id) else DraftConnection(src, w.tables, step.id);
      ReadIsNamed(src, w.tables, w.history, later, step);
      TasksNamedWith(src, w.history, w.tables.services.Keys, later, w.pending, step.replica, DraftedTask(w.tables, d));
    }
  }

  lemma OtherStepIsNamed(src: Sources, first: set<Id>, w: World, step: Step)
    requires Listed(w) && NamesSound(src, first, w) && (step.Check? || step.Begin? || step.Crash?)
    ensures NamesSound(src, first, Do(src, w, step))
  {
    var t, h, later := w.tables, w.history, w.basis.Keys + w.others;
    ServiceIdsAfter(h, t, NoWrite);
    TasksNamedWith(src, h, t.services.Keys, later, w.pending, step.replica, None);
    if step.Check? {
      TasksNamedWith(src, h, t.services.Keys, later, w.pending, step.replica, Some(ServiceNext(step.row)));
    } else if step.Begin? && step.id in src.bindings {
      AttachKeepsRowIds(t, src.bindings[step.id]);
      PlainWriteIsNamed(src, first, w, Attach(t, src.bindings[step.id]), w.pending);
      TasksNamedWith(src, h, t.services.Keys, later, w.pending, step.replica, Some(Unmatched(step.id)));
    }
  }

  lemma StepIsNamed(src: Sources, first: set<Id>, w: World, step: Step)
    requires Listed(w) && NamesSound(src, first, w)
    ensures NamesSound(src, first, Do(src, w, step))
  {
    match step
    case Advance(r, fails) =>
      if r in w.pending && Known(src, w.history, w.pending[r]) {
        AdvanceIsNamed(src, first, w, r, fails);
      }
    case Create(d) => CreateIsNamed(src, first, w, d);
    case ReadToken(_, _) => ReadStepIsNamed(src, first, w, step);
    case ReadConnection(_, _) => ReadStepIsNamed(src, first, w, step);
    case _ => OtherStepIsNamed(src, first, w, step);
  }

  lemma {:induction false} EveryRunIsNamed(src: Sources, first: set<Id>, w: World, steps: seq<Step>)
    requires Listed(w) && NamesSound(src, first, w)
    ensures Listed(Run(src, w, steps)) && NamesSound(src, first, Run(src, w, steps))
    decreases steps
  {
    if steps != [] {
      StepIsListed(src, w, steps[0]);
      StepIsNamed(src, first, w, steps[0]);
      EveryRunIsNamed(src, first, Do(src, w, steps[0]), steps[1..]);
    }
  }

  // ---- one active service of a pair, or two ----

  /** The services of the pair that were there when the slug was resolved. */
  function SeenRivals(h: map<Id, Service>, seen: set<Id>, user: Id, c: Id): set<Id> {
    set d | d in seen && d in h && Serves(h[d], user, c)
  }

  lemma SeenRivalsWereThere(h: map<Id, Service>, t: Tables, user: Id, c: Id)
    requires Remembers(h, t.services)
    ensures SeenRivals(h, Seen(t, user), user, c) == Siblings(t, user, c)
  {
    forall i | i in t.services
      ensures SameButNode(t.services[i], h[i])
    {
    }
  }

  /** Of the names of two services, the one that stood in the way when the other was
      resolved belonged to a service that is gone. */
  ghost predicate FreedBetween(w: World, slug: string, seen: set<Id>, i: Id)
    requires i in w.history
  {
    || (exists d :: d in seen && Freed(w, d, w.history[i].slug))
    || (i in w.basis && exists d :: d in w.basis[i] && Freed(w, d, slug))
  }

  predicate Freed(w: World, d: Id, name: string) {
    d in w.history && d !in w.tables.services && w.history[d].slug == name
  }

  lemma RowsAsStored(h: map<Id, Service>, t: Tables)
    requires Remembers(h, t.services)
    ensures forall i :: i in t.services ==>
              i in h && t.services[i].slug == h[i].slug && t.services[i].user == h[i].user && t.services[i].active == h[i].active
  {
    forall i | i in t.services
      ensures SameButNode(t.services[i], h[i])
    {
    }
  }

  /** A slug has one holder: a row that had the slug of another one is gone. */
  lemma OtherHolderIsGone(h: map<Id, Service>, t: Tables, i: Id, d: Id)
    requires Remembers(h, t.services) && Replicas.DistinctSlugs(t)
    requires i in t.services && t.services[i].active && d in h && h[d].active && d != i
    requires h[d].user == t.services[i].user && h[d].slug == t.services[i].slug
    ensures d !in t.services
  {
    RowsAsStored(h, t);
  }

  /** And so is one whose slug is free. */
  lemma FreeSlugHolderIsGone(h: map<Id, Service>, t: Tables, d: Id)
    requires Remembers(h, t.services) && d in h && h[d].active && h[d].slug !in ActiveSlugs(t, h[d].user)
    ensures d !in t.services
  {
    RowsAsStored(h, t);
    assert forall i :: i in t.services && t.services[i].active && t.services[i].user == h[d].user ==>
        t.services[i].slug in ActiveSlugs(t, h[d].user);
  }

  lemma EarlierNameSeen(h: map<Id, Service>, base: string, a: string, seenA: set<Id>, b: string, seenB: set<Id>)
    requires Fronted(h, seenA, base, a) && Fronted(h, seenB, base, b) && a != b
    ensures InUse(h, seenA, b) || InUse(h, seenB, a)
  {
    var n: nat :| 1 <= n <= Slugs.LAST_SUFFIX && FrontedAt(h, seenA, base, a, n);
    var k: nat :| 1 <= k <= Slugs.LAST_SUFFIX && FrontedAt(h, seenB, base, b, k);
    assert k < n ==> InUse(h, seenA, Slugs.Candidate(base, k));
    assert n < k ==> InUse(h, seenB, Slugs.Candidate(base, n));
  }

  /** Two slugs resolved for one pair differ only because a name was freed in between. */
  lemma DifferentNamesWereFreed(src: Sources, w: World, s: Service, seen: set<Id>, i: Id)
    requires Remembers(w.history, w.tables.services) && Replicas.DistinctSlugs(w.tables)
    requires Backed(src, w.history, s, seen) && s.catalog.Some? && s.slug !in ActiveSlugs(w.tables, s.user)
    requires i in w.tables.services && Serves(w.tables.services[i], s.user, s.catalog.value) && i !in seen
    requires i in w.basis && i in w.history && w.history[i].catalog == s.catalog
    requires w.history[i].slug == w.tables.services[i].slug && w.history[i].user == s.user
    requires Backed(src, w.history, w.history[i], w.basis[i])
    ensures FreedBetween(w, s.slug, seen, i)
  {
    var h, t, other := w.history, w.tables, w.history[i].slug;
    assert t.services[i].slug in ActiveSlugs(t, s.user);
    EarlierNameSeen(h, src.catalog[s.catalog.value].slug, s.slug, seen, other, w.basis[i]);
    if InUse(h, seen, other) {
      var d :| d in seen && d in h && h[d].slug == other;
      OtherHolderIsGone(h, t, i, d);
      assert Freed(w, d, other);
    } else {
      var d :| d in w.basis[i] && d in h && h[d].slug == s.slug;
      FreeSlugHolderIsGone(h, t, d);
      assert Freed(w, d, s.slug);
    }
  }

  /** Why the pair has an active service by now. */
  ghost predicate HasReason(w: World, user: Id, c: Id, slug: string, seen: set<Id>) {
    || SeenRivals(w.history, seen, user, c) != {}
    || (exists i :: i in Siblings(w.tables, user, c) && i in w.others)
    || (exists i :: i in Siblings(w.tables, user, c) && i in w.history && FreedBetween(w, slug, seen, i))
  }

  /** In every run, a service that a binding copy inserts is a second active one of its pair
      if and only if one of three things happened: a service of the pair was there when the
      slug was resolved; another writer has created one since; or a copy has, under another
      name, and the one of the two names that comes first was freed in between. */
  lemma SecondServiceExactly(src: Sources, t: Tables, steps: seq<Step>, r: ReplicaId)
    requires Supplied(t) && Replicas.DistinctSlugs(t)
    ensures var w := Run(src, Start(t), steps);
      r in w.pending && w.pending[r].KeyIn? ==>
        && Known(src, w.history, w.pending[r])
        && var task := w.pending[r];
           var b := src.bindings[task.id];
           !Refused(src, w.tables, task.id, task.slug) ==>
             (Siblings(w.tables, b.user, b.service) != {} <==> HasReason(w, b.user, b.service, task.slug, task.seen))
  {
    var w := RunIsNamed(src, t, steps);
    if r in w.pending && w.pending[r].KeyIn? {
      InsertionHasReason(src, w, r);
    }
  }

  lemma RunIsNamed(src: Sources, t: Tables, steps: seq<Step>) returns (w: World)
    requires Supplied(t) && Replicas.DistinctSlugs(t)
    ensures w == Run(src, Start(t), steps)
    ensures Listed(w) && NamesSound(src, t.services.Keys, w) && Replicas.DistinctSlugs(w.tables)
  {
    w := Run(src, Start(t), steps);
    StartIsListed(t);
    StartIsNamed(src, t);
    EveryRunIsNamed(src, t.services.Keys, Start(t), steps);
    EveryRunKeepsDistinct(src, Start(t), steps);
  }

  /** A reason leaves a service: what was seen has a survivor. */
  lemma ReasonsLeaveService(w: World, user: Id, c: Id, slug: string, seen: set<Id>)
    requires Listed(w) && HasReason(w, user, c, slug, seen)
    ensures Siblings(w.tables, user, c) != {}
  {
    if SeenRivals(w.history, seen, user, c) != {} {
      var d :| d in SeenRivals(w.history, seen, user, c);
      OnceServedStaysServed(w, d, user, c);
    }
  }

  lemma InsertionHasReason(src: Sources, w: World, r: ReplicaId)
    requires Listed(w) && Replicas.DistinctSlugs(w.tables) && BasisNamed(src, w.history, w.basis)
    requires TasksNamed(src, w.history, w.tables.services.Keys, w.basis.Keys + w.others, w.pending)
    requires r in w.pending && w.pending[r].KeyIn?
    ensures Known(src, w.history, w.pending[r])
    ensures var task := w.pending[r];
      var b := src.bindings[task.id];
      !Refused(src, w.tables, task.id, task.slug) ==>
        (Siblings(w.tables, b.user, b.service) != {} <==> HasReason(w, b.user, b.service, task.slug, task.seen))
  {
    var task := w.pending[r];
    assert TaskNamed(src, w.history, w.tables.services.Keys, w.basis.Keys + w.others, task);
    var b := src.bindings[task.id];
    if Siblings(w.tables, b.user, b.service) == {} {
      if HasReason(w, b.user, b.service, task.slug, task.seen) {
        ReasonsLeaveService(w, b.user, b.service, task.slug, task.seen);
      }
    } else if !Refused(src, w.tables, task.id, task.slug) {
      RivalsHaveReasons(src, w, task);
    }
  }

  /** Nothing of the user was deleted, and nobody else wrote for the user. */
  predicate Undisturbed(w: World, user: Id) {
    forall i :: i in w.history && w.history[i].user == user ==> i in w.tables.services && i !in w.others
  }

  lemma NothingWasFreed(src: Sources, w: World, s: Service, seen: set<Id>, c: Id)
    requires Remembers(w.history, w.tables.services) && BasisNamed(src, w.history, w.basis)
    requires Backed(src, w.history, s, seen) && Undisturbed(w, s.user)
    ensures HasReason(w, s.user, c, s.slug, seen) <==> SeenRivals(w.history, seen, s.user, c) != {}
  {
    RowsAsStored(w.history, w.tables);
    forall i | i in Siblings(w.tables, s.user, c)
      ensures i in w.history && i !in w.others && !FreedBetween(w, s.slug, seen, i)
    {
      assert i in w.basis ==> Backed(src, w.history, w.history[i], w.basis[i]);
    }
  }

  /** Then only the first reason remains: who resolved before the first insertion has the
      same slug, and is refused. */
  lemma UndisturbedOnlySeenRivals(src: Sources, t: Tables, steps: seq<Step>, r: ReplicaId)
    requires Supplied(t) && Replicas.DistinctSlugs(t)
    ensures var w := Run(src, Start(t), steps);
      r in w.pending && w.pending[r].KeyIn? ==>
        && Known(src, w.history, w.pending[r])
        && var task := w.pending[r];
           var b := src.bindings[task.id];
           !Refused(src, w.tables, task.id, task.slug) && Undisturbed(w, b.user) ==>
             (Siblings(w.tables, b.user, b.service) != {} <==> SeenRivals(w.history, task.seen, b.user, b.service) != {})
  {
    var w := RunIsNamed(src, t, steps);
    if r in w.pending && w.pending[r].KeyIn? {
      var task := w.pending[r];
      InsertionHasReason(src, w, r);
      assert TaskNamed(src, w.history, w.tables.services.Keys, w.basis.Keys + w.others, task);
      var b := src.bindings[task.id];
      if Undisturbed(w, b.user) {
        NothingWasFreed(src, w, Planned(src, w.history, task), task.seen, b.service);
      }
    }
  }

  lemma RivalsHaveReasons(src: Sources, w: World, task: Task)
    requires Listed(w) && Replicas.DistinctSlugs(w.tables) && BasisNamed(src, w.history, w.basis)
    requires TaskNamed(src, w.history, w.tables.services.Keys, w.basis.Keys + w.others, task) && task.KeyIn?
    requires !Refused(src, w.tables, task.id, task.slug)
    ensures var b := src.bindings[task.id];
      Siblings(w.tables, b.user, b.service) != {} ==> HasReason(w, b.user, b.service, task.slug, task.seen)
  {
    var b := src.bindings[task.id];
    if Siblings(w.tables, b.user, b.service) != {} {
      var i :| i in Siblings(w.tables, b.user, b.service);
      assert SameButNode(w.tables.services[i], w.history[i]);
      if i in task.seen {
        assert i in SeenRivals(w.history, task.seen, b.user, b.service);
      } else if i !in w.others {
        assert i in w.basis;
        DifferentNamesWereFreed(src, w, Planned(src, w.history, task), task.seen, i);
      }
    }
  }
}
