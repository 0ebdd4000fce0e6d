/** References in every run of `BootReplicas`: after each single write active services find
    their endpoint and key, and migrated ones share theirs with nobody. */
module BootRows {
  import opened Options
  import opened UserTables
  import opened Copies
  import opened Bindings
  import opened BootReplicas
  import opened BootServices

  /** Identifiers and references of all rows there ever were come from the supply. */
  predicate Drawn(h: map<Id, Service>, next: Id) {
    forall i :: i in h ==> i < next && h[i].endpoint < next && (h[i].key.Some? ==> h[i].key.value < next)
  }

  /** Migrated rows never shared endpoint or key with another. */
  predicate Exclusive(h: map<Id, Service>) {
    forall i, j :: i in h && j in h && i != j && IsMigrated(h[i]) ==>
      h[i].endpoint != h[j].endpoint && (h[i].key.Some? ==> h[i].key != h[j].key)
  }

  ghost predicate RowsSound(h: map<Id, Service>, t: Tables) {
    Supplied(t) && Drawn(h, t.next) && Exclusive(h) && Remembers(h, t.services) && Resolves(t)
  }

  // ---- rows a binding copy has inserted and no service refers to yet ----

  function HeldEndpoint(task: Task): Option<Id> {
    if task.EndpointIn? || task.KeyIn? then Some(task.endpoint) else None
  }

  function HeldKey(task: Task): Option<Id> {
    if task.KeyIn? || task.KeyLeft? then Some(task.key) else None
  }

  ghost predicate Holds(h: map<Id, Service>, t: Tables, task: Task) {
    && (HeldEndpoint(task).Some? ==>
          HeldEndpoint(task).value in t.endpoints && forall i :: i in h ==> h[i].endpoint != HeldEndpoint(task).value)
    && (HeldKey(task).Some? ==>
          HeldKey(task).value in t.keys && forall i :: i in h ==> h[i].key != HeldKey(task))
  }

  predicate Apart(a: Task, b: Task) {
    && (HeldEndpoint(a).Some? ==> HeldEndpoint(a) != HeldEndpoint(b))
    && (HeldKey(a).Some? ==> HeldKey(a) != HeldKey(b))
  }

  /** What different tasks hold is different, and no service has it yet. */
  ghost predicate HeldSound(h: map<Id, Service>, t: Tables, pending: map<ReplicaId, Task>) {
    && (forall r :: r in pending ==> Holds(h, t, pending[r]))
    && (forall r, q :: r in pending && q in pending && r != q ==> Apart(pending[r], pending[q]))
  }

  ghost predicate Sound(w: World) {
    Listed(w) && RowsSound(w.history, w.tables) && HeldSound(w.history, w.tables, w.pending)
  }

  lemma StartIsSound(t: Tables)
    requires SoundTables(t)
    ensures Sound(Start(t))
  {
  }

  // ---- one write ----

  /** What the write needs to keep the rows sound. */
  ghost predicate Fits(h: map<Id, Service>, t: Tables, e: Effect) {
    match e
    case DeleteEndpoint(i) => forall j :: j in t.services ==> t.services[j].endpoint != i
    case DeleteKey(i) => forall j :: j in t.services ==> t.services[j].key != Some(i)
    case NewService(_, endpoint, key) =>
      && endpoint in t.endpoints && key in t.keys
      && forall i :: i in h ==> h[i].endpoint != endpoint && h[i].key != Some(key)
    case _ => true
  }

  lemma RowKeepsExclusive(h: map<Id, Service>, i: Id, s: Service)
    requires Exclusive(h) && i !in h && s.key.Some?
    requires forall j :: j in h ==> h[j].endpoint != s.endpoint && h[j].key != s.key
    ensures Exclusive(h[i := s])
  {
    var k := h[i := s];
    forall a, b | a in k && b in k && a != b && IsMigrated(k[a])
      ensures k[a].endpoint != k[b].endpoint && (k[a].key.Some? ==> k[a].key != k[b].key)
    {
      if a != i && b != i {
        assert k[a] == h[a] && k[b] == h[b];
      }
    }
  }

  lemma AttachKeepsRows(h: map<Id, Service>, t: Tables, b: Binding)
    requires RowsSound(h, t)
    ensures RowsSound(h, Attach(t, b))
  {
    AttachKeepsSiblings(t, b);
  }

  lemma DeleteKeepsRows(h: map<Id, Service>, t: Tables, e: Effect)
    requires RowsSound(h, t) && Fits(h, t, e) && (e.DeleteService? || e.DeleteEndpoint? || e.DeleteKey?)
    ensures RowsSound(h, After(t, e))
  {
  }

  lemma OwnedKeepsRows(h: map<Id, Service>, t: Tables, d: Draft)
    requires RowsSound(h, t)
    ensures RowsSound(h, After(t, NewEndpoint(d))) && RowsSound(h, After(t, NewKey(d)))
  {
  }

  lemma ServiceKeepsTables(h: map<Id, Service>, t: Tables, e: Effect)
    requires Supplied(t) && Remembers(h, t.services) && Resolves(t) && Fits(h, t, e) && AddsService(e)
    ensures Supplied(After(t, e)) && Remembers(Recorded(h, t, e), After(t, e).services) && Resolves(After(t, e))
  {
  }

  lemma ServiceKeepsRows(h: map<Id, Service>, t: Tables, e: Effect)
    requires RowsSound(h, t) && Fits(h, t, e) && AddsService(e)
    ensures RowsSound(Recorded(h, t, e), After(t, e))
  {
    RowKeepsExclusive(h, FiledId(t, e), FiledRow(t, e));
    ServiceKeepsTables(h, t, e);
  }

  lemma WriteKeepsRows(h: map<Id, Service>, t: Tables, e: Effect)
    requires RowsSound(h, t) && Fits(h, t, e)
    ensures RowsSound(Recorded(h, t, e), After(t, e))
  {
    match e
    case NoWrite =>
    case SetNode(b) => AttachKeepsRows(h, t, b);
    case DeleteService(_) => DeleteKeepsRows(h, t, e);
    case DeleteEndpoint(_) => DeleteKeepsRows(h, t, e);
    case DeleteKey(_) => DeleteKeepsRows(h, t, e);
    case NewEndpoint(d) => OwnedKeepsRows(h, t, d);
    case NewKey(d) => OwnedKeepsRows(h, t, d);
    case NewService(_, _, _) => ServiceKeepsRows(h, t, e);
    case NewTriple(_) => ServiceKeepsRows(h, t, e);
  }

  /** The write does not take away what the task holds. */
  predicate Spares(e: Effect, task: Task) {
    match e
    case DeleteEndpoint(i) => HeldEndpoint(task) != Some(i)
    case DeleteKey(i) => HeldKey(task) != Some(i)
    case NewService(_, endpoint, key) => HeldEndpoint(task) != Some(endpoint) && HeldKey(task) != Some(key)
    case _ => true
  }

  lemma WriteKeepsHeld(h: map<Id, Service>, t: Tables, e: Effect, task: Task)
    requires Supplied(t) && Holds(h, t, task) && Spares(e, task)
    ensures Holds(Recorded(h, t, e), After(t, e), task)
  {
  }

  // ---- one step ----

  lemma HeldWithout(h: map<Id, Service>, t: Tables, pending: map<ReplicaId, Task>, r: ReplicaId)
    requires HeldSound(h, t, pending)
    ensures HeldSound(h, t, pending - {r})
  {
  }

  lemma HeldWith(h: map<Id, Service>, t: Tables, pending: map<ReplicaId, Task>, r: ReplicaId, task: Task)
    requires HeldSound(h, t, pending) && Holds(h, t, task)
    requires forall q :: q in pending && q != r ==> Apart(task, pending[q]) && Apart(pending[q], task)
    ensures HeldSound(h, t, pending[r := task])
  {
    var after := pending[r := task];
    forall a, b | a in after && b in after && a != b
      ensures Apart(after[a], after[b])
    {
      if a != r && b != r {
        assert after[a] == pending[a] && after[b] == pending[b];
      }
    }
  }

  lemma HeldIsSpared(h: map<Id, Service>, t: Tables, pending: map<ReplicaId, Task>, e: Effect)
    requires Supplied(t) && HeldSound(h, t, pending) && forall q :: q in pending ==> Spares(e, pending[q])
    ensures HeldSound(Recorded(h, t, e), After(t, e), pending)
  {
    forall q | q in pending
      ensures Holds(Recorded(h, t, e), After(t, e), pending[q])
    {
      WriteKeepsHeld(h, t, e, pending[q]);
    }
  }

  /** A turn is sound when its write fits, leaves the rows of the others alone, and what
      comes next holds nothing of theirs. */
  ghost predicate TurnFits(h: map<Id, Service>, t: Tables, pending: map<ReplicaId, Task>, r: ReplicaId, turn: Turn) {
    && Fits(h, t, turn.effect)
    && (forall q :: q in pending && q != r ==> Spares(turn.effect, pending[q]))
    && (turn.next.Some? ==>
          && Holds(Recorded(h, t, turn.effect), After(t, turn.effect), turn.next.value)
          && forall q :: q in pending && q != r ==> Apart(turn.next.value, pending[q]) && Apart(pending[q], turn.next.value))
  }

  lemma TurnIsSound(h: map<Id, Service>, t: Tables, pending: map<ReplicaId, Task>, r: ReplicaId, turn: Turn)
    requires RowsSound(h, t) && HeldSound(h, t, pending) && TurnFits(h, t, pending, r, turn)
    ensures RowsSound(Recorded(h, t, turn.effect), After(t, turn.effect))
    ensures HeldSound(Recorded(h, t, turn.effect), After(t, turn.effect), Next(pending, r, turn.next))
  {
    var k, u := Recorded(h, t, turn.effect), After(t, turn.effect);
    WriteKeepsRows(h, t, turn.effect);
    HeldWithout(h, t, pending, r);
    HeldIsSpared(h, t, pending - {r}, turn.effect);
    if turn.next.Some? {
      HeldWith(k, u, pending - {r}, r, turn.next.value);
      assert (pending - {r})[r := turn.next.value] == pending[r := turn.next.value];
    }
  }

  /** No remaining service refers to what a migrated row that is gone owned. */
  lemma GoneRowsAreUnreferenced(h: map<Id, Service>, t: Tables, i: Id, j: Id)
    requires RowsSound(h, t) && i in h && IsMigrated(h[i]) && i !in t.services && j in t.services
    ensures t.services[j].endpoint != h[i].endpoint
    ensures h[i].key.Some? ==> t.services[j].key != h[i].key
  {
    assert SameButNode(t.services[j], h[j]);
  }

  /** Neither does any task hold it. */
  lemma CleaningSpares(src: Sources, h: map<Id, Service>, t: Tables, task: Task, fails: bool, other: Task)
    requires Cleans(task) && Known(src, h, task) && Holds(h, t, other)
    ensures Spares(TurnOf(src, h, t, task, fails).effect, other)
  {
  }

  lemma DeletesFit(h: map<Id, Service>, t: Tables, doomed: set<Id>, task: Task)
    requires RowsSound(h, t) && DoomedWereDuplicates(h, doomed)
    requires Cleans(task) && Condemned(doomed, t.services.Keys, task)
    ensures task.row in h && IsMigrated(h[task.row])
    ensures task.EndpointNext? ==> Fits(h, t, DeleteEndpoint(h[task.row].endpoint))
    ensures task.KeyNext? && h[task.row].key.Some? ==> Fits(h, t, DeleteKey(h[task.row].key.value))
  {
    var i := task.row;
    assert WasDuplicate(h, i);
    if i !in t.services {
      forall j | j in t.services
        ensures t.services[j].endpoint != h[i].endpoint
        ensures h[i].key.Some? ==> t.services[j].key != h[i].key
      {
        GoneRowsAreUnreferenced(h, t, i, j);
      }
    }
  }

  lemma CleaningWrites(src: Sources, h: map<Id, Service>, t: Tables, doomed: set<Id>, task: Task, fails: bool)
    requires RowsSound(h, t) && DoomedWereDuplicates(h, doomed) && Condemned(doomed, t.services.Keys, task)
    requires Cleans(task) && Known(src, h, task)
    ensures Fits(h, t, TurnOf(src, h, t, task, fails).effect)
  {
    DeletesFit(h, t, doomed, task);
  }

  lemma CleaningFits(
      src: Sources, h: map<Id, Service>, t: Tables, doomed: set<Id>, pending: map<ReplicaId, Task>, r: ReplicaId, fails: bool)
    requires RowsSound(h, t) && HeldSound(h, t, pending) && DoomedWereDuplicates(h, doomed)
    requires r in pending && Cleans(pending[r]) && Known(src, h, pending[r]) && Condemned(doomed, t.services.Keys, pending[r])
    ensures TurnFits(h, t, pending, r, TurnOf(src, h, t, pending[r], fails))
  {
    CleaningWrites(src, h, t, doomed, pending[r], fails);
    forall q | q in pending
      ensures Spares(TurnOf(src, h, t, pending[r], fails).effect, pending[q])
    {
      CleaningSpares(src, h, t, pending[r], fails, pending[q]);
    }
    CleaningHoldsNothing(src, h, t, pending[r], fails);
  }

  lemma CleaningHoldsNothing(src: Sources, h: map<Id, Service>, t: Tables, task: Task, fails: bool)
    requires Cleans(task) && Known(src, h, task)
    ensures var next := TurnOf(src, h, t, task, fails).next;
      next.Some? ==> HeldEndpoint(next.value).None? && HeldKey(next.value).None?
  {
  }

  /** No service refers to what a task holds. */
  lemma HeldIsUnreferenced(h: map<Id, Service>, t: Tables, task: Task)
    requires Remembers(h, t.services) && Holds(h, t, task)
    ensures forall j :: j in t.services ==> HeldEndpoint(task) != Some(t.services[j].endpoint)
    ensures forall j :: j in t.services && t.services[j].key.Some? ==> HeldKey(task) != t.services[j].key
  {
    forall j | j in t.services
      ensures HeldEndpoint(task) != Some(t.services[j].endpoint)
      ensures t.services[j].key.Some? ==> HeldKey(task) != t.services[j].key
    {
      assert SameButNode(t.services[j], h[j]);
    }
  }

  /** What a copy goes on with is what it held before, or is new. */
  lemma CopyingHolds(src: Sources, h: map<Id, Service>, t: Tables, task: Task, fails: bool)
    requires Supplied(t) && Drawn(h, t.next) && Holds(h, t, task) && !Cleans(task) && Known(src, h, task)
    ensures var turn := TurnOf(src, h, t, task, fails);
      turn.next.Some? ==> !Cleans(turn.next.value) && Holds(Recorded(h, t, turn.effect), After(t, turn.effect), turn.next.value)
  {
  }

  lemma CopyingStaysApart(src: Sources, h: map<Id, Service>, t: Tables, task: Task, fails: bool, other: Task)
    requires Supplied(t) && !Cleans(task) && Known(src, h, task)
    requires Holds(h, t, other) && Apart(task, other) && Apart(other, task)
    ensures var turn := TurnOf(src, h, t, task, fails);
      Spares(turn.effect, other) && (turn.next.Some? ==> Apart(turn.next.value, other) && Apart(other, turn.next.value))
  {
  }

  lemma CopyingFits(src: Sources, w: World, r: ReplicaId, fails: bool)
    requires Sound(w) && r in w.pending && !Cleans(w.pending[r]) && Known(src, w.history, w.pending[r])
    ensures TurnFits(w.history, w.tables, w.pending, r, TurnOf(src, w.history, w.tables, w.pending[r], fails))
  {
    var h, t, task := w.history, w.tables, w.pending[r];
    HeldIsUnreferenced(h, t, task);
    CopyingHolds(src, h, t, task, fails);
    forall q | q in w.pending && q != r
      ensures var turn := TurnOf(src, h, t, task, fails);
        Spares(turn.effect, w.pending[q])
        && (turn.next.Some? ==> Apart(turn.next.value, w.pending[q]) && Apart(w.pending[q], turn.next.value))
    {
      CopyingStaysApart(src, h, t, task, fails, w.pending[q]);
    }
  }

  lemma AdvanceIsSound(src: Sources, w: World, r: ReplicaId, fails: bool)
    requires Sound(w) && r in w.pending && Known(src, w.history, w.pending[r])
    ensures var v := Do(src, w, Advance(r, fails)); RowsSound(v.history, v.tables) && HeldSound(v.history, v.tables, v.pending)
  {
    if Cleans(w.pending[r]) {
      CleaningFits(src, w.history, w.tables, w.doomed, w.pending, r, fails);
    } else {
      CopyingFits(src, w, r, fails);
    }
    TurnIsSound(w.history, w.tables, w.pending, r, TurnOf(src, w.history, w.tables, w.pending[r], fails));
  }

  /** Other steps start or end tasks that hold nothing. */
  lemma OtherStepsHoldNothing(src: Sources, w: World, step: Step)
    requires !step.Advance?
    ensures var v := Do(src, w, step);
      forall q :: q in v.pending ==>
        || (q in w.pending && v.pending[q] == w.pending[q])
        || (HeldEndpoint(v.pending[q]).None? && HeldKey(v.pending[q]).None?)
  {
  }

  lemma HeldByFewer(h: map<Id, Service>, t: Tables, pending: map<ReplicaId, Task>, after: map<ReplicaId, Task>)
    requires HeldSound(h, t, pending)
    requires forall q :: q in after ==>
      || (q in pending && after[q] == pending[q])
      || (HeldEndpoint(after[q]).None? && HeldKey(after[q]).None?)
    ensures HeldSound(h, t, after)
  {
  }

  lemma OtherStepIsSound(src: Sources, w: World, step: Step)
    requires Sound(w) && !step.Advance?
    ensures var v := Do(src, w, step); RowsSound(v.history, v.tables) && HeldSound(v.history, v.tables, v.pending)
  {
    var e := if step.Create? then NewTriple(step.draft)
             else if step.Begin? && step.id in src.bindings then SetNode(src.bindings[step.id]) else NoWrite;
    WriteKeepsRows(w.history, w.tables, e);
    HeldIsSpared(w.history, w.tables, w.pending, e);
    OtherStepsHoldNothing(src, w, step);
    if !step.Check? {
      OtherStepsWrite(src, w, step);
    }
    var v := Do(src, w, step);
    HeldByFewer(v.history, v.tables, w.pending, v.pending);
  }

  lemma StepIsSound(src: Sources, w: World, step: Step)
    requires Sound(w)
    ensures Sound(Do(src, w, step))
  {
    StepIsListed(src, w, step);
    if !step.Advance? {
      OtherStepIsSound(src, w, step);
    } else if step.replica in w.pending && Known(src, w.history, w.pending[step.replica]) {
      AdvanceIsSound(src, w, step.replica, step.fails);
    }
  }

  // ---- every run ----

  /** In every interleaving, after every single write, active services find their endpoint
      and key, and migrated ones share theirs with nobody. */
  lemma {:induction false} EveryRunIsIntact(src: Sources, w: World, steps: seq<Step>)
    requires Sound(w)
    ensures Sound(Run(src, w, steps)) && Intact(Run(src, w, steps).tables)
    decreases steps
  {
    if steps == [] {
      forall i, j | i in w.tables.services && j in w.tables.services && i != j && IsMigrated(w.tables.services[i])
        ensures w.tables.services[i].endpoint != w.tables.services[j].endpoint
        ensures w.tables.services[i].key.Some? ==> w.tables.services[i].key != w.tables.services[j].key
      {
        assert SameButNode(w.tables.services[i], w.history[i]) && SameButNode(w.tables.services[j], w.history[j]);
      }
    } else {
      StepIsSound(src, w, steps[0]);
      EveryRunIsIntact(src, Do(src, w, steps[0]), steps[1..]);
    }
  }
}
