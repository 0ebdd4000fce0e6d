/** The whole migration as several replicas run it at once: every replica takes the four
    phases step by step, in a world that the others and further writers change between any
    two of its steps (backend/src/db.rs, `migrate_to_unified_collections`). */
module BootReplicas {
  import opened Options
  import opened UserTables
  import opened Cleanup
  import opened Copies
  import opened Bindings
  import Replicas

  type ReplicaId = Replicas.ReplicaId

  /** What a replica is about to do. The cleanup deletes service, endpoint and key of a row
      whose base it has seen. A token or connection copy has been drafted and will commit in
      one transaction. A binding copy has no transaction: its look-ups, inserts and
      compensating deletes are steps of their own. `seen` are the active services of the
      user at the moment the slug was resolved. */
  datatype Task =
    | ServiceNext(row: Id)
    | EndpointNext(row: Id)
    | KeyNext(row: Id)
    | Drafted(draft: Draft, seen: set<Id>)
    | Unmatched(id: Id)
    | Looked(id: Id)
    | Keyless(id: Id)
    | Resolved(id: Id, slug: string, seen: set<Id>)
    | EndpointIn(id: Id, slug: string, seen: set<Id>, endpoint: Id)
    | KeyIn(id: Id, slug: string, seen: set<Id>, endpoint: Id, key: Id)
    | KeyLeft(key: Id)

  /** `history` holds every service row there ever was, as it was first stored, `doomed` the
      rows for which some replica has found a base, `basis` what was seen when the slug of a
      copied service was resolved, and `others` the services of other writers. */
  datatype World = World(
    tables: Tables, history: map<Id, Service>, doomed: set<Id>, basis: map<Id, set<Id>>, others: set<Id>,
    pending: map<ReplicaId, Task>)

  datatype Step =
    | Check(replica: ReplicaId, row: Id)
    | ReadToken(replica: ReplicaId, id: Id)
    | ReadConnection(replica: ReplicaId, id: Id)
    | Begin(replica: ReplicaId, id: Id)
    | Advance(replica: ReplicaId, fails: bool)
    | Crash(replica: ReplicaId)
    | Create(draft: Draft)

  function Start(t: Tables): World {
    World(t, t.services, {}, map[], {}, map[])
  }

  function Seen(t: Tables, user: Id): set<Id> {
    set i | i in t.services && t.services[i].active && t.services[i].user == user
  }

  function Rivals(src: Sources, t: Tables, id: Id): set<Id>
    requires id in src.bindings
  {
    Siblings(t, src.bindings[id].user, src.bindings[id].service)
  }

  function DraftWith(src: Sources, id: Id, slug: string): Draft
    requires id in src.bindings && src.bindings[id].service in src.catalog
  {
    var b := src.bindings[id];
    Draft(b.user, BindingUrl(src.catalog[b.service]), Some(b.service), slug, None, Some(b.node), b.priority, BINDING_SOURCE, id)
  }

  // ---- single database operations ----

  datatype Effect =
    | NoWrite
    | SetNode(binding: Binding)
    | DeleteService(id: Id)
    | DeleteEndpoint(id: Id)
    | DeleteKey(id: Id)
    | NewEndpoint(draft: Draft)
    | NewKey(draft: Draft)
    | NewService(draft: Draft, endpoint: Id, key: Id)
    | NewTriple(draft: Draft)

  function After(t: Tables, e: Effect): Tables {
    match e
    case NoWrite => t
    case SetNode(b) => Attach(t, b)
    case DeleteService(i) => Apply(t, DropService(i))
    case DeleteEndpoint(i) => Apply(t, DropEndpoint(i))
    case DeleteKey(i) => Apply(t, DropKey(i))
    case NewEndpoint(d) => Apply(t, PutEndpoint(t.next, DraftEndpoint(d))).(next := t.next + 1)
    case NewKey(d) => Apply(t, PutKey(t.next, DraftKey(d))).(next := t.next + 1)
    case NewService(d, endpoint, key) => Apply(t, PutService(t.next, DraftService(d, endpoint, key))).(next := t.next + 1)
    case NewTriple(d) => Insert(t, d)
  }

  predicate AddsService(e: Effect) {
    e.NewService? || e.NewTriple?
  }

  /** Identifier and first state of the service that is inserted. */
  function FiledId(t: Tables, e: Effect): Id {
    if e.NewTriple? then t.next + 2 else t.next
  }

  function FiledRow(t: Tables, e: Effect): Service
    requires AddsService(e)
  {
    if e.NewTriple? then DraftService(e.draft, t.next, t.next + 1) else DraftService(e.draft, e.endpoint, e.key)
  }

  function Recorded(h: map<Id, Service>, t: Tables, e: Effect): map<Id, Service> {
    if AddsService(e) then h[FiledId(t, e) := FiledRow(t, e)] else h
  }

  function Backing(basis: map<Id, set<Id>>, t: Tables, e: Effect, seen: set<Id>): map<Id, set<Id>> {
    if AddsService(e) then basis[FiledId(t, e) := seen] else basis
  }

  // ---- one step of one replica ----

  /** The rows a task names are there. */
  predicate Known(src: Sources, h: map<Id, Service>, task: Task) {
    match task
    case ServiceNext(i) => i in h
    case EndpointNext(i) => i in h
    case KeyNext(i) => i in h
    case Drafted(_, _) => true
    case KeyLeft(_) => true
    case Unmatched(id) => id in src.bindings
    case Looked(id) => id in src.bindings
    case Keyless(id) => id in src.bindings
    case _ => task.id in src.bindings && src.bindings[task.id].service in src.catalog
  }

  /** What the step writes, and what the replica does next. */
  datatype Turn = Turn(effect: Effect, next: Option<Task>)

  const IDLE := Turn(NoWrite, None)

  /** The unique indexes refuse the service. */
  predicate Refused(src: Sources, t: Tables, id: Id, slug: string)
    requires id in src.bindings
  {
    ServiceFrom(t, BINDING_SOURCE, id) || slug in ActiveSlugs(t, src.bindings[id].user)
  }

  /** With `fails`, an insert that the indexes allow fails for another reason. */
  function TurnOf(src: Sources, h: map<Id, Service>, t: Tables, task: Task, fails: bool): Turn
    requires Known(src, h, task)
  {
    match task
    case ServiceNext(i) => Turn(DeleteService(i), Some(EndpointNext(i)))
    case EndpointNext(i) => Turn(DeleteEndpoint(h[i].endpoint), if h[i].key.Some? then Some(KeyNext(i)) else None)
    case KeyNext(i) => Turn(if h[i].key.Some? then DeleteKey(h[i].key.value) else NoWrite, None)
    case Drafted(d, _) => if fails || !Guards(t, d) || BreaksIndex(t, d) then IDLE else Turn(NewTriple(d), None)
    case Unmatched(id) => if Rivals(src, t, id) != {} then IDLE else Turn(NoWrite, Some(Looked(id)))
    case Looked(id) => if KeyFrom(t, BINDING_SOURCE, id) then IDLE else Turn(NoWrite, Some(Keyless(id)))
    case Keyless(id) => Turn(NoWrite, ResolvedTask(src, t, id))
    case Resolved(id, slug, seen) =>
      if fails then IDLE else Turn(NewEndpoint(DraftWith(src, id, slug)), Some(EndpointIn(id, slug, seen, t.next)))
    case EndpointIn(id, slug, seen, e) =>
      if fails || KeyFrom(t, BINDING_SOURCE, id) then Turn(DeleteEndpoint(e), None)
      else Turn(NewKey(DraftWith(src, id, slug)), Some(KeyIn(id, slug, seen, e, t.next)))
    case KeyIn(id, slug, seen, e, k) =>
      if fails || Refused(src, t, id, slug) then Turn(DeleteEndpoint(e), Some(KeyLeft(k)))
      else Turn(NewService(DraftWith(src, id, slug), e, k), None)
    case KeyLeft(k) => Turn(DeleteKey(k), None)
  }

  function ResolvedTask(src: Sources, t: Tables, id: Id): Option<Task>
    requires id in src.bindings
  {
    var b := src.bindings[id];
    if b.service !in src.catalog then None
    else match ResolveSlug(t, b.user, src.catalog[b.service].slug)
      case None => None
      case Some(slug) => Some(Resolved(id, slug, Seen(t, b.user)))
  }

  function SeenBy(task: Task): set<Id> {
    if task.Drafted? || task.Resolved? || task.EndpointIn? || task.KeyIn? then task.seen else {}
  }

  function Next(pending: map<ReplicaId, Task>, r: ReplicaId, next: Option<Task>): map<ReplicaId, Task> {
    if next.Some? then pending[r := next.value] else pending - {r}
  }

  function Taken(w: World, r: ReplicaId, turn: Turn, seen: set<Id>): World {
    World(After(w.tables, turn.effect), Recorded(w.history, w.tables, turn.effect), w.doomed,
      Backing(w.basis, w.tables, turn.effect, seen), w.others, Next(w.pending, r, turn.next))
  }

  function DraftedTask(t: Tables, d: Option<Draft>): Option<Task> {
    if d.Some? then Some(Drafted(d.value, Seen(t, d.value.user))) else None
  }

  /** A transaction that finds its source changed, or its user refused, inserts nothing: for
      the tables that is a crash of the copy. */
  function Do(src: Sources, w: World, step: Step): World {
    var t := w.tables;
    match step
    case Check(r, i) =>
      if r in w.pending || i !in w.history || !Selected(w.history[i]) || !Removable(t, w.history[i]) then w
      else w.(doomed := w.doomed + {i}, pending := w.pending[r := ServiceNext(i)])
    case ReadToken(r, id) =>
      if r in w.pending || id !in src.tokens || !TokenAdmitted(src, src.tokens[id]) then w
      else w.(pending := Next(w.pending, r, DraftedTask(t, DraftToken(src, t, id))))
    case ReadConnection(r, id) =>
      if r in w.pending || id !in src.connections || !src.connections[id].active || src.connections[id].user in src.erased then w
      else w.(pending := Next(w.pending, r, DraftedTask(t, DraftConnection(src, t, id))))
    case Begin(r, id) =>
      if r in w.pending || id !in src.bindings || !src.bindings[id].active then w
      else if Rivals(src, t, id) != {} then w.(tables := Attach(t, src.bindings[id]))
      else w.(pending := w.pending[r := Unmatched(id)])
    case Advance(r, fails) =>
      if r !in w.pending || !Known(src, w.history, w.pending[r]) then w
      else Taken(w, r, TurnOf(src, w.history, t, w.pending[r], fails), SeenBy(w.pending[r]))
    case Crash(r) => w.(pending := w.pending - {r})
    case Create(d) =>
      if "migration_" <= d.source || BreaksIndex(t, d) then w
      else w.(tables := Insert(t, d), history := Recorded(w.history, t, NewTriple(d)), others := w.others + {t.next + 2})
  }

  function Run(src: Sources, w: World, steps: seq<Step>): World
    decreases steps
  {
    if steps == [] then w else Run(src, Do(src, w, steps[0]), steps[1..])
  }

  // ---- nobody is stuck ----

  ghost predicate AllKnown(src: Sources, w: World) {
    forall r :: r in w.pending ==> Known(src, w.history, w.pending[r])
  }

  lemma NextIsKnown(src: Sources, w: World, r: ReplicaId, fails: bool)
    requires r in w.pending && Known(src, w.history, w.pending[r])
    ensures var turn := TurnOf(src, w.history, w.tables, w.pending[r], fails);
      turn.next.Some? ==> Known(src, w.history, turn.next.value)
  {
  }

  lemma GrownHistoryKnows(src: Sources, h: map<Id, Service>, g: map<Id, Service>, task: Task)
    requires Known(src, h, task) && h.Keys <= g.Keys
    ensures Known(src, g, task)
  {
  }

  lemma StepKeepsKnown(src: Sources, w: World, step: Step)
    requires AllKnown(src, w)
    ensures AllKnown(src, Do(src, w, step))
  {
    var v := Do(src, w, step);
    if step.Advance? && step.replica in w.pending {
      NextIsKnown(src, w, step.replica, step.fails);
    }
    forall r | r in v.pending
      ensures Known(src, v.history, v.pending[r])
    {
      if r in w.pending && v.pending[r] == w.pending[r] {
        GrownHistoryKnows(src, w.history, v.history, w.pending[r]);
      } else if step.Advance? {
        GrownHistoryKnows(src, w.history, v.history, v.pending[r]);
      }
    }
  }

  /** In every run a replica inside a task can take its next step. */
  lemma {:induction false} EveryTaskGoesOn(src: Sources, w: World, steps: seq<Step>)
    requires AllKnown(src, w)
    ensures AllKnown(src, Run(src, w, steps))
    decreases steps
  {
    if steps != [] {
      StepKeepsKnown(src, w, steps[0]);
      EveryTaskGoesOn(src, Do(src, w, steps[0]), steps[1..]);
    }
  }

  // ---- what is copied was there to be copied ----

  /** The row is in its collection, active where that matters, and its user may be changed
      where the copy asks. */
  predicate MayCopy(src: Sources, source: string, id: Id) {
    && (source == "migration_provider_token" ==> id in src.tokens && src.tokens[id].user !in src.erased)
    && (source == "migration_connection" ==>
          id in src.connections && src.connections[id].active && src.connections[id].user !in src.erased)
    && (source == "migration_node_binding" ==> id in src.bindings && src.bindings[id].active)
  }

  predicate TaskMayCopy(src: Sources, task: Task) {
    match task
    case ServiceNext(_) => true
    case EndpointNext(_) => true
    case KeyNext(_) => true
    case KeyLeft(_) => true
    case Drafted(d, _) => MayCopy(src, d.source, d.sourceId)
    case _ => task.id in src.bindings && src.bindings[task.id].active
  }

  /** Services that were not there before are copies of such rows, or come from no migration. */
  ghost predicate NewRowsMayBe(src: Sources, before: set<Id>, h: map<Id, Service>) {
    forall i :: i in h && i !in before && h[i].source.Some? && h[i].sourceId.Some? ==>
      MayCopy(src, h[i].source.value, h[i].sourceId.value)
  }

  ghost predicate CopiesAllowed(src: Sources, before: set<Id>, w: World) {
    NewRowsMayBe(src, before, w.history) && forall r :: r in w.pending ==> TaskMayCopy(src, w.pending[r])
  }

  lemma TurnMayCopy(src: Sources, h: map<Id, Service>, t: Tables, task: Task, fails: bool)
    requires Known(src, h, task) && TaskMayCopy(src, task)
    ensures var turn := TurnOf(src, h, t, task, fails);
      && (turn.next.Some? ==> TaskMayCopy(src, turn.next.value))
      && (AddsService(turn.effect) ==> MayCopy(src, turn.effect.draft.source, turn.effect.draft.sourceId))
  {
  }

  lemma OtherStepMayCopy(src: Sources, before: set<Id>, w: World, step: Step)
    requires CopiesAllowed(src, before, w) && !step.Advance?
    ensures CopiesAllowed(src, before, Do(src, w, step))
  {
  }

  lemma AdvanceMayCopy(src: Sources, before: set<Id>, w: World, r: ReplicaId, fails: bool)
    requires CopiesAllowed(src, before, w)
    ensures CopiesAllowed(src, before, Do(src, w, Advance(r, fails)))
  {
    if r in w.pending && Known(src, w.history, w.pending[r]) {
      TurnMayCopy(src, w.history, w.tables, w.pending[r], fails);
    }
  }

  /** In every run, a service that was not there at the start and is marked as the copy of a
      row is the copy of one that is there, active if a connection or binding, and of no user
      who is being erased if a token or connection. */
  lemma {:induction false} EveryRunCopiesActiveRows(src: Sources, before: set<Id>, w: World, steps: seq<Step>)
    requires CopiesAllowed(src, before, w)
    ensures CopiesAllowed(src, before, Run(src, w, steps))
    decreases steps
  {
    if steps != [] {
      if steps[0].Advance? {
        AdvanceMayCopy(src, before, w, steps[0].replica, steps[0].fails);
      } else {
        OtherStepMayCopy(src, before, w, steps[0]);
      }
      EveryRunCopiesActiveRows(src, before, Do(src, w, steps[0]), steps[1..]);
    }
  }
}
