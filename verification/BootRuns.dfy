/** Runs of `BootReplicas` that do what one would not expect: two active services for one
    pair, and a binding that is copied again after its copy was removed. */
module BootRuns {
  import opened Options
  import opened UserTables
  import opened Cleanup
  import opened Copies
  import opened Bindings
  import opened BootReplicas
  import opened BootNames
  import Replicas
  import Slugs

  // ---- stretches of a run ----

  function Go(r: ReplicaId): Step {
    Advance(r, false)
  }

  /** A binding copy up to the point where it has found no service and no key. */
  function LookUp(r: ReplicaId, id: Id): seq<Step> {
    [Begin(r, id), Go(r), Go(r)]
  }

  /** From there until endpoint and key are in. */
  function PutKey(r: ReplicaId): seq<Step> {
    [Go(r), Go(r), Go(r)]
  }

  lemma {:induction false} RunOn(src: Sources, w: World, a: seq<Step>, b: seq<Step>)
    ensures Run(src, w, a + b) == Run(src, Run(src, w, a), b)
    decreases a
  {
    if a == [] {
      assert a + b == b;
    } else {
      assert (a + b)[0] == a[0] && (a + b)[1..] == a[1..] + b;
      RunOn(src, Do(src, w, a[0]), a[1..], b);
    }
  }

  lemma TwoRuns(src: Sources, w: World, v: World, u: World, a: seq<Step>, b: seq<Step>)
    requires Run(src, w, a) == v && Run(src, v, b) == u
    ensures Run(src, w, a + b) == u
  {
    RunOn(src, w, a, b);
  }

  lemma OneStep(src: Sources, w: World, s: Step)
    ensures Run(src, w, [s]) == Do(src, w, s)
  {
    assert Run(src, Do(src, w, s), []) == Do(src, w, s);
  }

  lemma ThreeSteps(src: Sources, w: World, a: Step, b: Step, c: Step)
    ensures Run(src, w, [a, b, c]) == Do(src, Do(src, Do(src, w, a), b), c)
  {
    assert [a, b, c] == [a] + ([b] + [c]);
    RunOn(src, w, [a], [b] + [c]);
    OneStep(src, w, a);
    RunOn(src, Do(src, w, a), [b], [c]);
    OneStep(src, Do(src, w, a), b);
    OneStep(src, Do(src, Do(src, w, a), b), c);
  }

  lemma LookUpSteps(src: Sources, w: World, r: ReplicaId, id: Id)
    requires id in src.bindings && src.bindings[id].active && Rivals(src, w.tables, id) == {} && !KeyFrom(w.tables, BINDING_SOURCE, id)
    ensures r !in w.pending ==> Do(src, w, Begin(r, id)) == w.(pending := w.pending[r := Unmatched(id)])
    ensures r in w.pending && w.pending[r] == Unmatched(id) ==> Do(src, w, Go(r)) == w.(pending := w.pending[r := Looked(id)])
    ensures r in w.pending && w.pending[r] == Looked(id) ==> Do(src, w, Go(r)) == w.(pending := w.pending[r := Keyless(id)])
  {
  }

  lemma LookUpFindsNothing(src: Sources, w: World, r: ReplicaId, id: Id)
    requires r !in w.pending && id in src.bindings && src.bindings[id].active
    requires Rivals(src, w.tables, id) == {} && !KeyFrom(w.tables, BINDING_SOURCE, id)
    ensures Run(src, w, LookUp(r, id)) == w.(pending := w.pending[r := Keyless(id)])
  {
    var w1 := w.(pending := w.pending[r := Unmatched(id)]);
    var w2 := w1.(pending := w1.pending[r := Looked(id)]);
    LookUpSteps(src, w, r, id);
    LookUpSteps(src, w1, r, id);
    LookUpSteps(src, w2, r, id);
    ThreeSteps(src, w, Begin(r, id), Go(r), Go(r));
    assert w2.pending[r := Keyless(id)] == w.pending[r := Keyless(id)];
  }

  predicate ResolvesTo(src: Sources, t: Tables, id: Id, slug: string) {
    && id in src.bindings && src.bindings[id].service in src.catalog
    && ResolveSlug(t, src.bindings[id].user, src.catalog[src.bindings[id].service].slug) == Some(slug)
  }

  /** Endpoint and key of the copy are in. */
  function KeyInserted(src: Sources, t: Tables, id: Id, slug: string): Tables
    requires id in src.bindings && src.bindings[id].service in src.catalog
  {
    var d := DraftWith(src, id, slug);
    Tables(t.endpoints[t.next := DraftEndpoint(d)], t.keys[t.next + 1 := DraftKey(d)], t.services, t.next + 2)
  }

  lemma ResolveStep(src: Sources, w: World, r: ReplicaId, id: Id, slug: string)
    requires r in w.pending && w.pending[r] == Keyless(id) && ResolvesTo(src, w.tables, id, slug)
    ensures Do(src, w, Go(r)) == w.(pending := w.pending[r := Resolved(id, slug, Seen(w.tables, src.bindings[id].user))])
  {
  }

  lemma EndpointStep(src: Sources, w: World, r: ReplicaId, id: Id, slug: string, seen: set<Id>)
    requires r in w.pending && w.pending[r] == Resolved(id, slug, seen)
    requires id in src.bindings && src.bindings[id].service in src.catalog
    ensures var t := w.tables;
      Do(src, w, Go(r)) == w.(
        tables := Tables(t.endpoints[t.next := DraftEndpoint(DraftWith(src, id, slug))], t.keys, t.services, t.next + 1),
        pending := w.pending[r := EndpointIn(id, slug, seen, t.next)])
  {
  }

  lemma KeyStep(src: Sources, w: World, r: ReplicaId, id: Id, slug: string, seen: set<Id>, e: Id)
    requires r in w.pending && w.pending[r] == EndpointIn(id, slug, seen, e) && !KeyFrom(w.tables, BINDING_SOURCE, id)
    requires id in src.bindings && src.bindings[id].service in src.catalog
    ensures var t := w.tables;
      Do(src, w, Go(r)) == w.(
        tables := Tables(t.endpoints, t.keys[t.next := DraftKey(DraftWith(src, id, slug))], t.services, t.next + 1),
        pending := w.pending[r := KeyIn(id, slug, seen, e, t.next)])
  {
  }

  lemma PutKeyInserts(src: Sources, w: World, r: ReplicaId, id: Id, slug: string)
    requires r in w.pending && w.pending[r] == Keyless(id) && ResolvesTo(src, w.tables, id, slug)
    requires !KeyFrom(w.tables, BINDING_SOURCE, id)
    ensures Run(src, w, PutKey(r)) == w.(tables := KeyInserted(src, w.tables, id, slug), pending :=
      w.pending[r := KeyIn(id, slug, Seen(w.tables, src.bindings[id].user), w.tables.next, w.tables.next + 1)])
  {
    var seen, n := Seen(w.tables, src.bindings[id].user), w.tables.next;
    ResolveStep(src, w, r, id, slug);
    var w1 := Do(src, w, Go(r));
    EndpointStep(src, w1, r, id, slug, seen);
    var w2 := Do(src, w1, Go(r));
    assert w2.tables.keys == w.tables.keys;
    KeyStep(src, w2, r, id, slug, seen, n);
    ThreeSteps(src, w, Go(r), Go(r), Go(r));
  }

  lemma CopyUpToKey(src: Sources, w: World, r: ReplicaId, id: Id, slug: string)
    requires r !in w.pending && ResolvesTo(src, w.tables, id, slug) && src.bindings[id].active
    requires Rivals(src, w.tables, id) == {} && !KeyFrom(w.tables, BINDING_SOURCE, id)
    ensures Run(src, w, LookUp(r, id) + PutKey(r)) == w.(tables := KeyInserted(src, w.tables, id, slug), pending :=
      w.pending[r := KeyIn(id, slug, Seen(w.tables, src.bindings[id].user), w.tables.next, w.tables.next + 1)])
  {
    var task := KeyIn(id, slug, Seen(w.tables, src.bindings[id].user), w.tables.next, w.tables.next + 1);
    var looked := w.(pending := w.pending[r := Keyless(id)]);
    var keyed := looked.(tables := KeyInserted(src, w.tables, id, slug), pending := looked.pending[r := task]);
    LookUpFindsNothing(src, w, r, id);
    PutKeyInserts(src, looked, r, id, slug);
    TwoRuns(src, w, looked, keyed, LookUp(r, id), PutKey(r));
    assert keyed.pending == w.pending[r := task];
  }

  /** The service is in as well, and the copy is over. */
  function Served(src: Sources, w: World, r: ReplicaId, task: Task): World
    requires task.KeyIn? && Known(src, w.history, task)
  {
    Taken(w, r, Turn(NewService(DraftWith(src, task.id, task.slug), task.endpoint, task.key), None), task.seen)
  }

  lemma LastStepServes(src: Sources, w: World, r: ReplicaId)
    requires r in w.pending && w.pending[r].KeyIn? && Known(src, w.history, w.pending[r])
    requires !Refused(src, w.tables, w.pending[r].id, w.pending[r].slug)
    ensures Run(src, w, [Go(r)]) == Served(src, w, r, w.pending[r])
  {
    OneStep(src, w, Go(r));
  }

  /** The whole second half. */
  function Finish(r: ReplicaId): seq<Step> {
    PutKey(r) + [Go(r)]
  }

  lemma FinishInserts(src: Sources, w: World, r: ReplicaId, id: Id, slug: string)
    requires r in w.pending && w.pending[r] == Keyless(id) && ResolvesTo(src, w.tables, id, slug)
    requires !KeyFrom(w.tables, BINDING_SOURCE, id) && !ServiceFrom(w.tables, BINDING_SOURCE, id)
    ensures Run(src, w, Finish(r)) == Copied(src, w, r, id, slug)
  {
    var t := w.tables;
    var v := Run(src, w, PutKey(r));
    PutKeyInserts(src, w, r, id, slug);
    RunOn(src, w, PutKey(r), [Go(r)]);
    ResolvedSlugIsFree(t, src.bindings[id].user, src.catalog[src.bindings[id].service].slug);
    assert v.tables.services == t.services;
    assert !Refused(src, v.tables, id, slug);
    LastStepServes(src, v, r);
    assert v.pending - {r} == w.pending - {r};
  }

  function Copied(src: Sources, w: World, r: ReplicaId, id: Id, slug: string): World
    requires id in src.bindings && src.bindings[id].service in src.catalog
  {
    var t, d := w.tables, DraftWith(src, id, slug);
    World(Insert(t, d), w.history[t.next + 2 := DraftService(d, t.next, t.next + 1)], w.doomed,
      w.basis[t.next + 2 := Seen(t, d.user)], w.others, w.pending - {r})
  }

  // ---- two services for one pair ----

  lemma InsertedNames(t: Tables, d: Draft, user: Id, c: Id)
    requires Supplied(t)
    ensures Supplied(Insert(t, d))
    ensures ActiveSlugs(Insert(t, d), user) == ActiveSlugs(t, user) + (if d.user == user then {d.slug} else {})
    ensures Siblings(Insert(t, d), user, c) == Siblings(t, user, c) + (if d.user == user && d.catalog == Some(c) then {t.next + 2} else {})
  {
    var u := Insert(t, d);
    forall slug | slug in ActiveSlugs(t, user)
      ensures slug in ActiveSlugs(u, user)
    {
      var i :| i in t.services && t.services[i].active && t.services[i].user == user && t.services[i].slug == slug;
      assert u.services[i] == t.services[i];
    }
    assert u.services[t.next + 2].slug == d.slug;
  }

  /** Neither a service nor a key or service of the two active bindings is there. */
  predicate Untouched(src: Sources, t: Tables, a: Id, b: Id) {
    && a in src.bindings && b in src.bindings && a != b && SamePair(src.bindings[a], src.bindings[b])
    && src.bindings[a].active && src.bindings[b].active
    && Rivals(src, t, a) == {}
    && !KeyFrom(t, BINDING_SOURCE, a) && !KeyFrom(t, BINDING_SOURCE, b)
    && !ServiceFrom(t, BINDING_SOURCE, a) && !ServiceFrom(t, BINDING_SOURCE, b)
  }

  lemma InsertKeepsOtherOrigins(t: Tables, d: Draft, id: Id)
    requires Supplied(t) && d.sourceId != id
    ensures KeyFrom(Insert(t, d), BINDING_SOURCE, id) <==> KeyFrom(t, BINDING_SOURCE, id)
    ensures ServiceFrom(Insert(t, d), BINDING_SOURCE, id) <==> ServiceFrom(t, BINDING_SOURCE, id)
  {
    var u := Insert(t, d);
    assert forall i :: i in t.keys ==> i in u.keys && u.keys[i] == t.keys[i];
    assert forall i :: i in t.services ==> i in u.services && u.services[i] == t.services[i];
  }

  /** Two replicas look before either has inserted anything; then both copy. */
  function EarlyLookUps(a: Id, b: Id): seq<Step> {
    LookUp(0, a) + LookUp(1, b) + Finish(0) + Finish(1)
  }

  function BothLooked(w: World, a: Id, b: Id): World {
    w.(pending := w.pending[0 := Keyless(a)][1 := Keyless(b)])
  }

  lemma BothLookUps(src: Sources, w: World, a: Id, b: Id)
    requires Untouched(src, w.tables, a, b) && 0 !in w.pending && 1 !in w.pending
    ensures Run(src, w, LookUp(0, a) + LookUp(1, b)) == BothLooked(w, a, b)
  {
    LookUpFindsNothing(src, w, 0, a);
    LookUpFindsNothing(src, w.(pending := w.pending[0 := Keyless(a)]), 1, b);
    RunOn(src, w, LookUp(0, a), LookUp(1, b));
  }

  lemma FirstFinish(src: Sources, w: World, a: Id, b: Id, slug: string)
    requires Untouched(src, w.tables, a, b) && ResolvesTo(src, w.tables, a, slug)
    ensures Run(src, BothLooked(w, a, b), Finish(0)) == Copied(src, BothLooked(w, a, b), 0, a, slug)
  {
    FinishInserts(src, BothLooked(w, a, b), 0, a, slug);
  }

  lemma SecondFinish(src: Sources, w: World, a: Id, b: Id, slug: string, slug2: string)
    requires Supplied(w.tables) && Untouched(src, w.tables, a, b) && ResolvesTo(src, w.tables, a, slug)
    requires ResolvesTo(src, Insert(w.tables, DraftWith(src, a, slug)), b, slug2)
    ensures var v := Copied(src, BothLooked(w, a, b), 0, a, slug); Run(src, v, Finish(1)) == Copied(src, v, 1, b, slug2)
  {
    InsertKeepsOtherOrigins(w.tables, DraftWith(src, a, slug), b);
    FinishInserts(src, Copied(src, BothLooked(w, a, b), 0, a, slug), 1, b, slug2);
  }

  lemma TasksForgotten(src: Sources, w: World, v: World, a: Id, b: Id, slug: string, slug2: string)
    requires v == w.(pending := v.pending) && v.pending - {0} - {1} == w.pending
    requires 0 !in w.pending && 1 !in w.pending
    requires a in src.bindings && src.bindings[a].service in src.catalog
    requires b in src.bindings && src.bindings[b].service in src.catalog
    ensures Copied(src, Copied(src, v, 0, a, slug), 1, b, slug2) == Copied(src, Copied(src, w, 0, a, slug), 1, b, slug2)
  {
    assert w.pending - {0} - {1} == w.pending;
  }

  /** After the two copies, under the names they resolve to. */
  lemma BothCopies(src: Sources, w: World, a: Id, b: Id, slug: string, slug2: string)
    requires Supplied(w.tables) && Untouched(src, w.tables, a, b) && 0 !in w.pending && 1 !in w.pending
    requires ResolvesTo(src, w.tables, a, slug)
    requires ResolvesTo(src, Insert(w.tables, DraftWith(src, a, slug)), b, slug2)
    ensures Run(src, w, EarlyLookUps(a, b)) == Copied(src, Copied(src, w, 0, a, slug), 1, b, slug2)
  {
    var v := BothLooked(w, a, b);
    var v1 := Copied(src, v, 0, a, slug);
    BothLookUps(src, w, a, b);
    FirstFinish(src, w, a, b, slug);
    SecondFinish(src, w, a, b, slug, slug2);
    TwoRuns(src, w, v, v1, LookUp(0, a) + LookUp(1, b), Finish(0));
    TwoRuns(src, w, v1, Copied(src, v1, 1, b, slug2), LookUp(0, a) + LookUp(1, b) + Finish(0), Finish(1));
    assert v.pending - {0} - {1} == w.pending;
    TasksForgotten(src, w, v, a, b, slug, slug2);
  }

  lemma TwoInsertsMakeTwo(t: Tables, d: Draft, d2: Draft, c: Id)
    requires Supplied(t) && Siblings(t, d.user, c) == {} && d.catalog == d2.catalog == Some(c) && d2.user == d.user
    ensures var u := Insert(Insert(t, d), d2);
      && Siblings(u, d.user, c) == {t.next + 2, t.next + 5}
      && u.services[t.next + 2].sourceId == Some(d.sourceId) && u.services[t.next + 5].sourceId == Some(d2.sourceId)
  {
    InsertedNames(t, d, d.user, c);
    InsertedNames(Insert(t, d), d2, d.user, c);
  }

  lemma RoomForTwo(src: Sources, t: Tables, a: Id, b: Id) returns (slug: string, slug2: string)
    requires Supplied(t) && Untouched(src, t, a, b) && src.bindings[a].service in src.catalog
    requires |ActiveSlugs(t, src.bindings[a].user)| < Slugs.LAST_SUFFIX - 1
    ensures ResolvesTo(src, t, a, slug) && ResolvesTo(src, Insert(t, DraftWith(src, a, slug)), b, slug2)
  {
    var user, c := src.bindings[a].user, src.bindings[a].service;
    var base := src.catalog[c].slug;
    FewSlugsLeaveOne(t, user, base);
    slug := ResolveSlug(t, user, base).value;
    var u := Insert(t, DraftWith(src, a, slug));
    InsertedNames(t, DraftWith(src, a, slug), user, c);
    OneMoreSlug(ActiveSlugs(t, user), slug);
    FewSlugsLeaveOne(u, user, base);
    slug2 := ResolveSlug(u, user, base).value;
  }

  /** From any tables that do not know the pair: it ends up with two active services, one
      for each of two bindings that name it, although both copies found none. */
  lemma EarlyLookUpsGiveTwoServices(src: Sources, t: Tables, a: Id, b: Id)
    requires Supplied(t) && Untouched(src, t, a, b) && src.bindings[a].service in src.catalog
    requires |ActiveSlugs(t, src.bindings[a].user)| < Slugs.LAST_SUFFIX - 1
    ensures var w := Run(src, Start(t), EarlyLookUps(a, b));
      && Rivals(src, w.tables, a) == {t.next + 2, t.next + 5}
      && w.tables.services[t.next + 2].sourceId == Some(a) && w.tables.services[t.next + 5].sourceId == Some(b)
  {
    var slug, slug2 := RoomForTwo(src, t, a, b);
    TwoInsertsMakeTwo(t, DraftWith(src, a, slug), DraftWith(src, b, slug2), src.bindings[a].service);
    BothCopies(src, Start(t), a, b, slug, slug2);
  }

  lemma FewSlugsLeaveOne(t: Tables, user: Id, base: string)
    requires |ActiveSlugs(t, user)| < Slugs.LAST_SUFFIX
    ensures ResolveSlug(t, user, base).Some?
  {
    Slugs.FilteredQueryAgrees(base, ActiveSlugs(t, user));
    Slugs.FewSlugsAlwaysResolve(base, ActiveSlugs(t, user));
  }

  lemma OneMoreSlug(used: set<string>, slug: string)
    ensures |used + {slug}| <= |used| + 1
  {
    if slug in used {
      assert used + {slug} == used;
    }
  }

  // ---- the cleanup in between ----

  /** A removal from the look-up to the last delete. */
  function Removal(r: ReplicaId, i: Id): seq<Step> {
    [Check(r, i)] + [Go(r), Go(r), Go(r)]
  }

  lemma RemovalRemoves(src: Sources, w: World, r: ReplicaId, i: Id)
    requires r !in w.pending && i in w.history && w.history[i].key.Some?
    requires Selected(w.history[i]) && Removable(w.tables, w.history[i])
    ensures Run(src, w, Removal(r, i)) == w.(tables := Remove(w.tables, i, w.history[i]), doomed := w.doomed + {i})
  {
    var t, s := w.tables, w.history[i];
    var w0 := w.(doomed := w.doomed + {i}, pending := w.pending[r := ServiceNext(i)]);
    var w1 := w0.(tables := Apply(t, DropService(i)), pending := w.pending[r := EndpointNext(i)]);
    var w2 := w0.(tables := Apply(Apply(t, DropService(i)), DropEndpoint(s.endpoint)), pending := w.pending[r := KeyNext(i)]);
    OneStep(src, w, Check(r, i));
    RunOn(src, w, [Check(r, i)], [Go(r), Go(r), Go(r)]);
    ThreeSteps(src, w0, Go(r), Go(r), Go(r));
    DeleteSteps(src, w0, w1, w2, r, i);
    assert w.pending[r := KeyNext(i)] - {r} == w.pending;
  }

  lemma DeleteSteps(src: Sources, w0: World, w1: World, w2: World, r: ReplicaId, i: Id)
    requires i in w0.history && w0.history[i].key.Some? && r in w0.pending && w0.pending[r] == ServiceNext(i)
    requires w1 == w0.(tables := Apply(w0.tables, DropService(i)), pending := w0.pending[r := EndpointNext(i)])
    requires w2 == w1.(tables := Apply(w1.tables, DropEndpoint(w0.history[i].endpoint)), pending := w0.pending[r := KeyNext(i)])
    ensures Do(src, w0, Go(r)) == w1 && Do(src, w1, Go(r)) == w2
    ensures Do(src, w2, Go(r)) == w2.(tables := Apply(w2.tables, DropKey(w0.history[i].key.value)), pending := w2.pending - {r})
  {
    assert w1.pending[r := KeyNext(i)] == w2.pending;
  }

  lemma RemoveUndoesInsert(t: Tables, d: Draft)
    requires Supplied(t)
    ensures Remove(Insert(t, d), t.next + 2, DraftService(d, t.next, t.next + 1)) == t.(next := t.next + 3)
  {
    var u := Remove(Insert(t, d), t.next + 2, DraftService(d, t.next, t.next + 1));
    assert u.services == t.services && u.endpoints == t.endpoints && u.keys == t.keys;
  }

  // ---- a binding copied twice ----

  /** Three replicas look early, two of them for the same binding; the copy of one is
      removed as a duplicate, and then the other one copies the binding again. */
  function CopyAgain(a: Id, b: Id, i: Id): seq<Step> {
    LookUp(2, b) + EarlyLookUps(a, b) + Removal(3, i) + Finish(2)
  }

  /** Once the base is in use the next name is the second candidate. */
  lemma SecondCandidateNext(used: set<string>, base: string)
    requires base in used && Slugs.Candidate(base, 2) !in used
    ensures Slugs.FirstFree(base, used) == Some(Slugs.Candidate(base, 2))
  {
    assert Slugs.IsFirstFree(base, used, 2);
    Slugs.FirstFreeIsSoundAndMinimal(base, used, Slugs.Candidate(base, 2));
  }

  lemma ResolvesToSecond(src: Sources, t: Tables, id: Id)
    requires id in src.bindings && src.bindings[id].service in src.catalog
    requires var base := src.catalog[src.bindings[id].service].slug;
      base in ActiveSlugs(t, src.bindings[id].user) && Slugs.Candidate(base, 2) !in ActiveSlugs(t, src.bindings[id].user)
    ensures ResolvesTo(src, t, id, Slugs.Candidate(src.catalog[src.bindings[id].service].slug, 2))
  {
    var used, base := ActiveSlugs(t, src.bindings[id].user), src.catalog[src.bindings[id].service].slug;
    Slugs.FilteredQueryAgrees(base, used);
    SecondCandidateNext(used, base);
  }

  lemma ResolvesToBase(src: Sources, t: Tables, id: Id)
    requires id in src.bindings && src.bindings[id].service in src.catalog
    requires src.catalog[src.bindings[id].service].slug !in ActiveSlugs(t, src.bindings[id].user)
    ensures ResolvesTo(src, t, id, src.catalog[src.bindings[id].service].slug)
  {
    Slugs.FilteredQueryAgrees(src.catalog[src.bindings[id].service].slug, ActiveSlugs(t, src.bindings[id].user));
  }

  /** With base and second candidate free the two copies take these names. */
  predicate TwoNamesFree(src: Sources, t: Tables, a: Id) {
    && a in src.bindings && src.bindings[a].service in src.catalog
    && var base, used := src.catalog[src.bindings[a].service].slug, ActiveSlugs(t, src.bindings[a].user);
       base !in used && Slugs.Candidate(base, 2) !in used
  }

  lemma CopiesTakeTwoNames(src: Sources, t: Tables, a: Id, b: Id)
    requires Supplied(t) && Untouched(src, t, a, b) && TwoNamesFree(src, t, a)
    ensures var base := src.catalog[src.bindings[a].service].slug;
      ResolvesTo(src, t, a, base) && ResolvesTo(src, Insert(t, DraftWith(src, a, base)), b, Slugs.Candidate(base, 2))
  {
    var base := src.catalog[src.bindings[a].service].slug;
    Slugs.CandidatesDiffer(base, 1, 2);
    ResolvesToBase(src, t, a);
    InsertedNames(t, DraftWith(src, a, base), src.bindings[a].user, src.bindings[a].service);
    ResolvesToSecond(src, Insert(t, DraftWith(src, a, base)), b);
  }

  /** The second of them is removable next to the first. */
  lemma SecondIsRemovable(src: Sources, t: Tables, a: Id, b: Id)
    requires Supplied(t) && Untouched(src, t, a, b) && src.bindings[a].service in src.catalog
    ensures var base := src.catalog[src.bindings[a].service].slug;
      var u := Insert(t, DraftWith(src, a, base));
      var s := DraftService(DraftWith(src, b, Slugs.Candidate(base, 2)), u.next, u.next + 1);
      Selected(s) && Removable(Insert(u, DraftWith(src, b, Slugs.Candidate(base, 2))), s)
  {
    var base := src.catalog[src.bindings[a].service].slug;
    var u := Insert(t, DraftWith(src, a, base));
    var d := DraftWith(src, b, Slugs.Candidate(base, 2));
    var s := DraftService(d, u.next, u.next + 1);
    Slugs.ParserRecoversBase(base, 2);
    assert IsBaseOf(Insert(u, d).services[t.next + 2], s, base);
  }

  /** The world when the copy of `b` has been removed again. */
  function BeforeCopyAgain(src: Sources, t: Tables, a: Id, b: Id): World
    requires TwoNamesFree(src, t, a) && b in src.bindings && SamePair(src.bindings[a], src.bindings[b])
  {
    var base := src.catalog[src.bindings[a].service].slug;
    var looked := Start(t).(pending := map[2 := Keyless(b)]);
    var copied := Copied(src, Copied(src, looked, 0, a, base), 1, b, Slugs.Candidate(base, 2));
    copied.(tables := Insert(t, DraftWith(src, a, base)).(next := t.next + 6), doomed := {t.next + 5})
  }

  lemma UpToTheRemoval(src: Sources, t: Tables, a: Id, b: Id)
    requires Supplied(t) && Untouched(src, t, a, b) && TwoNamesFree(src, t, a)
    ensures Run(src, Start(t), LookUp(2, b) + EarlyLookUps(a, b) + Removal(3, t.next + 5)) == BeforeCopyAgain(src, t, a, b)
  {
    var base := src.catalog[src.bindings[a].service].slug;
    var looked := Start(t).(pending := map[2 := Keyless(b)]);
    var copied := Copied(src, Copied(src, looked, 0, a, base), 1, b, Slugs.Candidate(base, 2));
    LookUpFindsNothing(src, Start(t), 2, b);
    CopiesTakeTwoNames(src, t, a, b);
    BothCopies(src, looked, a, b, base, Slugs.Candidate(base, 2));
    TwoRuns(src, Start(t), looked, copied, LookUp(2, b), EarlyLookUps(a, b));
    SecondIsRemoved(src, t, looked, a, b);
    TwoRuns(src, Start(t), copied, BeforeCopyAgain(src, t, a, b), LookUp(2, b) + EarlyLookUps(a, b), Removal(3, t.next + 5));
  }

  lemma RemovedAgain(src: Sources, w: World, t: Tables, d: Draft, i: Id, s: Service)
    requires 3 !in w.pending && i in w.history && w.history[i] == s && Selected(s) && Removable(w.tables, s)
    requires Supplied(t) && w.tables == Insert(t, d) && i == t.next + 2 && s == DraftService(d, t.next, t.next + 1)
    ensures Run(src, w, Removal(3, i)) == w.(tables := t.(next := t.next + 3), doomed := w.doomed + {i})
  {
    RemoveUndoesInsert(t, d);
    RemovalRemoves(src, w, 3, i);
  }

  lemma SecondIsRemoved(src: Sources, t: Tables, looked: World, a: Id, b: Id)
    requires Supplied(t) && Untouched(src, t, a, b) && TwoNamesFree(src, t, a)
    requires looked == Start(t).(pending := map[2 := Keyless(b)])
    ensures var base := src.catalog[src.bindings[a].service].slug;
      var copied := Copied(src, Copied(src, looked, 0, a, base), 1, b, Slugs.Candidate(base, 2));
      Run(src, copied, Removal(3, t.next + 5)) == BeforeCopyAgain(src, t, a, b)
  {
    var base := src.catalog[src.bindings[a].service].slug;
    var u, d := Insert(t, DraftWith(src, a, base)), DraftWith(src, b, Slugs.Candidate(base, 2));
    var copied := Copied(src, Copied(src, looked, 0, a, base), 1, b, Slugs.Candidate(base, 2));
    InsertKeepsSupplied(t, DraftWith(src, a, base));
    SecondIsRemovable(src, t, a, b);
    RemovedAgain(src, copied, u, d, t.next + 5, DraftService(d, u.next, u.next + 1));
    assert copied.doomed + {t.next + 5} == {t.next + 5};
  }

  lemma InsertKeepsSupplied(t: Tables, d: Draft)
    requires Supplied(t)
    ensures Supplied(Insert(t, d)) && Insert(t, d).next == t.next + 3
  {
  }

  /** Both copies of `b` are in the books, one of them removed, the other one in use. */
  predicate IsCopiedAgain(w: World, b: Id, first: Id, second: Id) {
    && first in w.history && second in w.history && first != second
    && w.history[first].source == w.history[second].source == Some(BINDING_SOURCE)
    && w.history[first].sourceId == w.history[second].sourceId == Some(b)
    && first !in w.tables.services && second in w.tables.services
  }

  lemma BooksAfterCopyAgain(src: Sources, t: Tables, a: Id, b: Id, two: string)
    requires Supplied(t) && TwoNamesFree(src, t, a) && b in src.bindings && SamePair(src.bindings[a], src.bindings[b])
    ensures IsCopiedAgain(Copied(src, BeforeCopyAgain(src, t, a, b), 2, b, two), b, t.next + 5, t.next + 8)
  {
    var removed := BeforeCopyAgain(src, t, a, b);
    assert removed.tables.next == t.next + 6;
    assert t.next + 5 in removed.history && removed.history[t.next + 5].sourceId == Some(b);
  }

  /** From any tables that do not know the pair and its first two names: a binding whose
      copy was removed as a duplicate is copied again. */
  lemma RemovedBindingIsCopiedAgain(src: Sources, t: Tables, a: Id, b: Id)
    requires Supplied(t) && Untouched(src, t, a, b) && TwoNamesFree(src, t, a)
    ensures var w := Run(src, Start(t), CopyAgain(a, b, t.next + 5));
      IsCopiedAgain(w, b, t.next + 5, t.next + 8) && Rivals(src, w.tables, a) == {t.next + 2, t.next + 8}
  {
    var two := Slugs.Candidate(src.catalog[src.bindings[a].service].slug, 2);
    var removed := BeforeCopyAgain(src, t, a, b);
    UpToTheRemoval(src, t, a, b);
    ThirdResolves(src, t, a, b, removed.tables);
    FinishAgain(src, removed, b, two);
    TwoRuns(src, Start(t), removed, Copied(src, removed, 2, b, two),
      LookUp(2, b) + EarlyLookUps(a, b) + Removal(3, t.next + 5), Finish(2));
    BooksAfterCopyAgain(src, t, a, b, two);
  }

  /** After the removal the tables are those with the first copy alone. */
  lemma ThirdResolves(src: Sources, t: Tables, a: Id, b: Id, u: Tables)
    requires Supplied(t) && Untouched(src, t, a, b) && TwoNamesFree(src, t, a)
    requires u == Insert(t, DraftWith(src, a, src.catalog[src.bindings[a].service].slug)).(next := t.next + 6)
    ensures var two := Slugs.Candidate(src.catalog[src.bindings[a].service].slug, 2);
      && ResolvesTo(src, u, b, two) && !KeyFrom(u, BINDING_SOURCE, b) && !ServiceFrom(u, BINDING_SOURCE, b)
      && Rivals(src, Insert(u, DraftWith(src, b, two)), a) == {t.next + 2, t.next + 8}
  {
    var base, user, c := src.catalog[src.bindings[a].service].slug, src.bindings[a].user, src.bindings[a].service;
    var d := DraftWith(src, a, base);
    InsertedNames(t, d, user, c);
    InsertKeepsOtherOrigins(t, d, b);
    CopiesTakeTwoNames(src, t, a, b);
    SameRows(Insert(t, d), u, user, c, b);
    ThirdJoinsFirst(u, DraftWith(src, b, Slugs.Candidate(base, 2)), user, c, t.next + 2);
  }

  lemma ThirdJoinsFirst(u: Tables, d: Draft, user: Id, c: Id, i: Id)
    requires Supplied(u) && Siblings(u, user, c) == {i} && d.user == user && d.catalog == Some(c)
    ensures Siblings(Insert(u, d), user, c) == {i, u.next + 2}
  {
    InsertedNames(u, d, user, c);
  }

  lemma FinishAgain(src: Sources, w: World, b: Id, slug: string)
    requires 2 in w.pending && w.pending[2] == Keyless(b) && ResolvesTo(src, w.tables, b, slug)
    requires !KeyFrom(w.tables, BINDING_SOURCE, b) && !ServiceFrom(w.tables, BINDING_SOURCE, b)
    ensures Run(src, w, Finish(2)) == Copied(src, w, 2, b, slug)
  {
    FinishInserts(src, w, 2, b, slug);
  }

  lemma SameRows(t: Tables, u: Tables, user: Id, c: Id, id: Id)
    requires u == t.(next := u.next) && t.next <= u.next && Supplied(t)
    ensures Supplied(u) && ActiveSlugs(u, user) == ActiveSlugs(t, user) && Siblings(u, user, c) == Siblings(t, user, c)
    ensures KeyFrom(u, BINDING_SOURCE, id) == KeyFrom(t, BINDING_SOURCE, id)
    ensures ServiceFrom(u, BINDING_SOURCE, id) == ServiceFrom(t, BINDING_SOURCE, id)
  {
  }

  // ---- a name freed between two resolutions ----

  /** Before the cleanup removes `i`, one replica resolves past its slug; behind it another
      one takes that slug. */
  function FreedName(a: Id, b: Id, i: Id): seq<Step> {
    LookUp(0, a) + PutKey(0) + Removal(2, i) + (LookUp(1, b) + PutKey(1))
  }

  /** The user has a service under `x` and, from a migration, one under `x-2`, both for
      another catalog entry than the pair, whose entry is called `x-2`. */
  predicate Crossing(src: Sources, t: Tables, a: Id, b: Id, x: string, p: Id, i: Id) {
    && Untouched(src, t, a, b) && src.bindings[a].service in src.catalog
    && src.catalog[src.bindings[a].service].slug == Slugs.Candidate(x, 2)
    && p in t.services && i in t.services && p != i && Selected(t.services[i]) && t.services[i].key.Some?
    && IsBaseOf(t.services[p], t.services[i], x) && t.services[i].slug == Slugs.Candidate(x, 2)
    && t.services[i].user == src.bindings[a].user
    && forall j :: j in t.services && t.services[j].active && t.services[j].user == src.bindings[a].user ==> j == p || j == i
  }

  function CrossedSlug(x: string): string {
    Slugs.Candidate(Slugs.Candidate(x, 2), 2)
  }

  lemma NamesOfCrossing(src: Sources, t: Tables, a: Id, b: Id, x: string, p: Id, i: Id)
    requires Crossing(src, t, a, b, x, p, i)
    ensures ActiveSlugs(t, src.bindings[a].user) == {x, Slugs.Candidate(x, 2)}
    ensures |x| < |Slugs.Candidate(x, 2)| < |CrossedSlug(x)|
    ensures ResolvesTo(src, t, a, CrossedSlug(x))
    ensures Removable(t, t.services[i])
  {
    assert t.services[p].slug in ActiveSlugs(t, src.bindings[a].user);
    assert t.services[i].slug in ActiveSlugs(t, src.bindings[a].user);
    ResolvesToSecond(src, t, a);
    Slugs.ParserRecoversBase(x, 2);
  }

  /** Without the row `i` only `x` is in use. */
  lemma NamesAfterRemoval(src: Sources, t: Tables, a: Id, b: Id, x: string, p: Id, i: Id, u: Tables)
    requires Crossing(src, t, a, b, x, p, i) && u.services == t.services - {i}
    ensures ActiveSlugs(u, src.bindings[a].user) == {x} && Rivals(src, u, a) == {} && ResolvesTo(src, u, b, Slugs.Candidate(x, 2))
    ensures !ServiceFrom(u, BINDING_SOURCE, a) && !ServiceFrom(u, BINDING_SOURCE, b)
  {
    NamesOfCrossing(src, t, a, b, x, p, i);
    assert u.services[p].slug in ActiveSlugs(u, src.bindings[a].user);
    assert forall j :: j in u.services ==> j in t.services && u.services[j] == t.services[j];
    ResolvesToBase(src, u, b);
  }

  /** The tables once endpoint and key of `a` are in and the row `i` is removed. */
  function FreedTables(src: Sources, t: Tables, a: Id, x: string, i: Id): Tables
    requires a in src.bindings && src.bindings[a].service in src.catalog && i in t.services
  {
    Remove(KeyInserted(src, t, a, CrossedSlug(x)), i, t.services[i])
  }

  lemma KeysOfCrossing(src: Sources, t: Tables, a: Id, b: Id, x: string, p: Id, i: Id)
    requires Crossing(src, t, a, b, x, p, i)
    ensures !KeyFrom(FreedTables(src, t, a, x, i), BINDING_SOURCE, b)
  {
    var u := FreedTables(src, t, a, x, i);
    assert forall k :: k in u.keys && k != t.next + 1 ==> k in t.keys && u.keys[k] == t.keys[k];
  }

  function FirstKeyIn(src: Sources, t: Tables, a: Id, x: string): Task
    requires a in src.bindings
  {
    KeyIn(a, CrossedSlug(x), Seen(t, src.bindings[a].user), t.next, t.next + 1)
  }

  /** Both copies are about to insert their service. */
  function FreedWorld(src: Sources, t: Tables, a: Id, b: Id, x: string, i: Id): World
    requires a in src.bindings && src.bindings[a].service in src.catalog && i in t.services
    requires b in src.bindings && SamePair(src.bindings[a], src.bindings[b])
  {
    var u := FreedTables(src, t, a, x, i);
    World(KeyInserted(src, u, b, Slugs.Candidate(x, 2)), t.services, {i}, map[], {}, map[
      0 := FirstKeyIn(src, t, a, x),
      1 := KeyIn(b, Slugs.Candidate(x, 2), Seen(u, src.bindings[b].user), u.next, u.next + 1)])
  }

  lemma FirstCopyKeyed(src: Sources, t: Tables, a: Id, b: Id, x: string, p: Id, i: Id)
    requires Crossing(src, t, a, b, x, p, i)
    ensures Run(src, Start(t), LookUp(0, a) + PutKey(0)) ==
            Start(t).(tables := KeyInserted(src, t, a, CrossedSlug(x)), pending := map[0 := FirstKeyIn(src, t, a, x)])
  {
    NamesOfCrossing(src, t, a, b, x, p, i);
    CopyUpToKey(src, Start(t), 0, a, CrossedSlug(x));
  }

  lemma FirstCopyUpToRemoval(src: Sources, t: Tables, a: Id, b: Id, x: string, p: Id, i: Id)
    requires Crossing(src, t, a, b, x, p, i)
    ensures Run(src, Start(t), LookUp(0, a) + PutKey(0) + Removal(2, i)) ==
            World(FreedTables(src, t, a, x, i), t.services, {i}, map[], {}, map[0 := FirstKeyIn(src, t, a, x)])
  {
    var keyed := Start(t).(tables := KeyInserted(src, t, a, CrossedSlug(x)), pending := map[0 := FirstKeyIn(src, t, a, x)]);
    FirstCopyKeyed(src, t, a, b, x, p, i);
    Slugs.ParserRecoversBase(x, 2);
    StaysRemovable(t, keyed.tables, t.services[i]);
    KeyedIsCleaned(src, t, a, x, i, keyed);
    RunOn(src, Start(t), LookUp(0, a) + PutKey(0), Removal(2, i));
  }

  lemma KeyedIsCleaned(src: Sources, t: Tables, a: Id, x: string, i: Id, w: World)
    requires a in src.bindings && src.bindings[a].service in src.catalog
    requires i in t.services && Selected(t.services[i]) && t.services[i].key.Some? && Removable(w.tables, t.services[i])
    requires w.history == t.services && w.tables == KeyInserted(src, t, a, CrossedSlug(x)) && 2 !in w.pending
    ensures Run(src, w, Removal(2, i)) == w.(tables := FreedTables(src, t, a, x, i), doomed := w.doomed + {i})
  {
    RemovalRemoves(src, w, 2, i);
  }

  lemma StaysRemovable(t: Tables, u: Tables, s: Service)
    requires u.services == t.services && Removable(t, s)
    ensures Removable(u, s)
  {
  }

  lemma SecondCopyKeyed(src: Sources, t: Tables, a: Id, b: Id, x: string, p: Id, i: Id, w: World)
    requires Crossing(src, t, a, b, x, p, i)
    requires w == World(FreedTables(src, t, a, x, i), t.services, {i}, map[], {}, map[0 := FirstKeyIn(src, t, a, x)])
    ensures Run(src, w, LookUp(1, b) + PutKey(1)) == FreedWorld(src, t, a, b, x, i)
  {
    NamesAfterRemoval(src, t, a, b, x, p, i, w.tables);
    KeysOfCrossing(src, t, a, b, x, p, i);
    CopyUpToKey(src, w, 1, b, Slugs.Candidate(x, 2));
  }

  lemma FreedRun(src: Sources, t: Tables, a: Id, b: Id, x: string, p: Id, i: Id)
    requires Crossing(src, t, a, b, x, p, i)
    ensures Run(src, Start(t), FreedName(a, b, i)) == FreedWorld(src, t, a, b, x, i)
  {
    var removed := World(FreedTables(src, t, a, x, i), t.services, {i}, map[], {}, map[0 := FirstKeyIn(src, t, a, x)]);
    FirstCopyUpToRemoval(src, t, a, b, x, p, i);
    SecondCopyKeyed(src, t, a, b, x, p, i, removed);
    RunOn(src, Start(t), LookUp(0, a) + PutKey(0) + Removal(2, i), LookUp(1, b) + PutKey(1));
  }

  // ---- two copies about to insert, in either order ----

  /** The indexes allow both services, and the pair has none. */
  predicate BothReady(src: Sources, w: World, r: ReplicaId, q: ReplicaId) {
    && r != q && r in w.pending && q in w.pending && w.pending[r].KeyIn? && w.pending[q].KeyIn?
    && Known(src, w.history, w.pending[r]) && Known(src, w.history, w.pending[q])
    && w.pending[r].id != w.pending[q].id && w.pending[r].slug != w.pending[q].slug
    && SamePair(src.bindings[w.pending[r].id], src.bindings[w.pending[q].id])
    && Rivals(src, w.tables, w.pending[r].id) == {}
    && !Refused(src, w.tables, w.pending[r].id, w.pending[r].slug)
    && !Refused(src, w.tables, w.pending[q].id, w.pending[q].slug)
  }

  lemma ServiceAdded(t: Tables, d: Draft, e: Id, k: Id, user: Id, c: Id)
    requires Supplied(t)
    ensures var u := After(t, NewService(d, e, k));
      && Supplied(u) && u.next == t.next + 1
      && ActiveSlugs(u, user) == ActiveSlugs(t, user) + (if d.user == user then {d.slug} else {})
      && Siblings(u, user, c) == Siblings(t, user, c) + (if d.user == user && d.catalog == Some(c) then {t.next} else {})
  {
    var u := After(t, NewService(d, e, k));
    forall slug | slug in ActiveSlugs(t, user)
      ensures slug in ActiveSlugs(u, user)
    {
      var i :| i in t.services && t.services[i].active && t.services[i].user == user && t.services[i].slug == slug;
      assert u.services[i] == t.services[i];
    }
    assert u.services[t.next].slug == d.slug;
  }

  lemma SecondStaysReady(t: Tables, d: Draft, e: Id, k: Id, id: Id, user: Id, slug: string)
    requires Supplied(t) && d.user == user && d.sourceId != id && d.slug != slug
    requires !ServiceFrom(t, BINDING_SOURCE, id) && slug !in ActiveSlugs(t, user)
    ensures var u := After(t, NewService(d, e, k)); !ServiceFrom(u, BINDING_SOURCE, id) && slug !in ActiveSlugs(u, user)
  {
    var u := After(t, NewService(d, e, k));
    ServiceAdded(t, d, e, k, user, 0);
    assert forall j :: j in u.services && j != t.next ==> j in t.services && u.services[j] == t.services[j];
  }

  /** The first insertion does not get the second one refused. */
  lemma FirstInserts(src: Sources, w: World, r: ReplicaId, q: ReplicaId)
    requires Supplied(w.tables) && BothReady(src, w, r, q)
    ensures var v := Served(src, w, r, w.pending[r]);
      && Supplied(v.tables) && v.tables.next == w.tables.next + 1
      && Rivals(src, v.tables, w.pending[r].id) == {w.tables.next}
      && !Refused(src, v.tables, w.pending[q].id, w.pending[q].slug)
  {
    var t, first, second := w.tables, w.pending[r], w.pending[q];
    var b, d := src.bindings[first.id], DraftWith(src, first.id, first.slug);
    ServiceAdded(t, d, first.endpoint, first.key, b.user, b.service);
    SecondStaysReady(t, d, first.endpoint, first.key, second.id, b.user, second.slug);
  }

  lemma SecondInserts(src: Sources, v: World, q: ReplicaId, task: Task, i: Id)
    requires Supplied(v.tables) && task.KeyIn? && Known(src, v.history, task) && Rivals(src, v.tables, task.id) == {i}
    ensures Rivals(src, Served(src, v, q, task).tables, task.id) == {i, v.tables.next}
  {
    var b := src.bindings[task.id];
    ServiceAdded(v.tables, DraftWith(src, task.id, task.slug), task.endpoint, task.key, b.user, b.service);
  }

  lemma BothInsert(src: Sources, w: World, r: ReplicaId, q: ReplicaId)
    requires Supplied(w.tables) && BothReady(src, w, r, q)
    ensures Rivals(src, Run(src, w, [Go(r)] + [Go(q)]).tables, w.pending[r].id) == {w.tables.next, w.tables.next + 1}
  {
    var v := Served(src, w, r, w.pending[r]);
    LastStepServes(src, w, r);
    FirstInserts(src, w, r, q);
    LastStepServes(src, v, q);
    SecondInserts(src, v, q, w.pending[q], w.tables.next);
    TwoRuns(src, w, v, Served(src, v, q, w.pending[q]), [Go(r)], [Go(q)]);
  }

  lemma CrossingIsReady(src: Sources, t: Tables, a: Id, b: Id, x: string, p: Id, i: Id)
    requires Supplied(t) && Crossing(src, t, a, b, x, p, i)
    ensures BothReady(src, FreedWorld(src, t, a, b, x, i), 0, 1) && BothReady(src, FreedWorld(src, t, a, b, x, i), 1, 0)
    ensures Supplied(FreedWorld(src, t, a, b, x, i).tables)
  {
    var w := FreedWorld(src, t, a, b, x, i);
    NamesOfCrossing(src, t, a, b, x, p, i);
    NamesAfterRemoval(src, t, a, b, x, p, i, w.tables);
  }

  lemma CrossingHasNoRivals(src: Sources, t: Tables, seen: set<Id>, user: Id, c: Id)
    requires seen <= t.services.Keys && Siblings(t, user, c) == {}
    ensures SeenRivals(t.services, seen, user, c) == {}
  {
    assert SeenRivals(t.services, seen, user, c) <= Siblings(t, user, c);
  }

  /** Neither copy saw a service of the pair, and neither insertion is refused: whichever
      comes first, under the name in front or the one behind, the pair ends up with two. */
  lemma FreedNameGivesTwoServices(src: Sources, t: Tables, a: Id, b: Id, x: string, p: Id, i: Id)
    requires Supplied(t) && Crossing(src, t, a, b, x, p, i)
    ensures var w := Run(src, Start(t), FreedName(a, b, i));
      && BothReady(src, w, 0, 1) && w.pending[0].id == a && w.pending[1].id == b
      && w.pending[1].slug == src.catalog[src.bindings[a].service].slug && w.pending[0].slug == Slugs.Candidate(w.pending[1].slug, 2)
      && (forall r :: r in {0, 1} ==> SeenRivals(w.history, w.pending[r].seen, src.bindings[a].user, src.bindings[a].service) == {})
      && |Rivals(src, Run(src, w, [Go(0)] + [Go(1)]).tables, a)| == 2
      && |Rivals(src, Run(src, w, [Go(1)] + [Go(0)]).tables, a)| == 2
  {
    FreedRun(src, t, a, b, x, p, i);
    var w := FreedWorld(src, t, a, b, x, i);
    CrossingIsReady(src, t, a, b, x, p, i);
    BothInsert(src, w, 0, 1);
    BothInsert(src, w, 1, 0);
    CrossingHasNoRivals(src, t, w.pending[0].seen, src.bindings[a].user, src.bindings[a].service);
    CrossingHasNoRivals(src, t, w.pending[1].seen, src.bindings[a].user, src.bindings[a].service);
  }

  // ---- tables and sources of these runs ----

  /** One catalog entry 5 of the given slug, and two bindings of user 0 for it. */
  function TwoBindings(slug: string): Sources {
    Sources(map[], map[], map[1 := Binding(0, 5, 1, 0, true), 2 := Binding(0, 5, 2, 0, true)], map[],
      map[5 := CatalogEntry(slug, "", true, None, "http", None)], map[], {})
  }

  /** Two services of another entry, the second one migrated. */
  function TwoServices(x: string, two: string): Tables {
    Tables(map[0 := Endpoint(0, "", Some(9)), 1 := Endpoint(0, "", Some(9))],
      map[2 := ApiKey(0, None, Some(CONNECTION_SOURCE), Some(7))],
      map[3 := Service(0, x, 0, None, Some(9), true, None, 0, None, None),
          4 := Service(0, two, 1, Some(2), Some(9), true, None, 0, Some(CONNECTION_SOURCE), Some(7))], 5)
  }

  /** Sound tables with unique slugs. */
  ghost predicate IsStart(t: Tables) {
    SoundTables(t) && Replicas.DistinctSlugs(t)
  }

  lemma BindingsAreUntouched(slug: string, t: Tables)
    requires forall i :: i in t.services ==> t.services[i].catalog == Some(9) && t.services[i].source != Some(BINDING_SOURCE)
    requires forall i :: i in t.keys ==> t.keys[i].source != Some(BINDING_SOURCE)
    ensures Untouched(TwoBindings(slug), t, 1, 2) && TwoBindings(slug).bindings[1].service in TwoBindings(slug).catalog
  {
  }

  const EMPTY := Tables(map[], map[], map[], 0)

  lemma EmptyTables(slug: string)
    ensures IsStart(EMPTY) && Supplied(EMPTY) && ActiveSlugs(EMPTY, 0) == {}
    ensures Untouched(TwoBindings(slug), EMPTY, 1, 2)
  {
    BindingsAreUntouched(slug, EMPTY);
  }

  /** The run ends with two active services of the pair of a binding. */
  ghost predicate Doubles(src: Sources, t: Tables, steps: seq<Step>, id: Id)
    requires id in src.bindings
  {
    |Rivals(src, Run(src, Start(t), steps).tables, id)| == 2
  }

  /** A pair gets two active services in a run from empty tables. */
  lemma PairsCanDouble(slug: string)
    ensures exists steps :: Doubles(TwoBindings(slug), EMPTY, steps, 1)
  {
    EmptyTables(slug);
    EarlyLookUpsGiveTwoServices(TwoBindings(slug), EMPTY, 1, 2);
    assert Doubles(TwoBindings(slug), EMPTY, EarlyLookUps(1, 2), 1);
  }

  lemma ServicesOfStart(x: string)
    ensures IsStart(TwoServices(x, Slugs.Candidate(x, 2)))
  {
    assert |Slugs.Candidate(x, 2)| > |x|;
    StartWithTwo(x, Slugs.Candidate(x, 2));
  }

  lemma StartWithTwo(x: string, two: string)
    requires x != two
    ensures IsStart(TwoServices(x, two))
  {
  }

  lemma ServicesCross(x: string)
    ensures Crossing(TwoBindings(Slugs.Candidate(x, 2)), TwoServices(x, Slugs.Candidate(x, 2)), 1, 2, x, 3, 4)
  {
    CrossingFor(x, Slugs.Candidate(x, 2));
  }

  lemma CrossingFor(x: string, two: string)
    requires two == Slugs.Candidate(x, 2)
    ensures Crossing(TwoBindings(two), TwoServices(x, two), 1, 2, x, 3, 4)
  {
    BindingsAreUntouched(two, TwoServices(x, two));
  }

  /** A pair gets two active services, although neither copy has seen one: the first resolved
      past a name, the other one took it when it was free. It happens in either order. */
  ghost predicate DoublesUnseen(src: Sources, t: Tables, steps: seq<Step>, a: Id, b: Id) {
    var w := Run(src, Start(t), steps);
    && BothReady(src, w, 0, 1) && w.pending[0].id == a && w.pending[1].id == b
    && SeenRivals(w.history, w.pending[0].seen, src.bindings[a].user, src.bindings[a].service) == {}
    && SeenRivals(w.history, w.pending[1].seen, src.bindings[a].user, src.bindings[a].service) == {}
    && Doubles(src, t, steps + ([Go(0)] + [Go(1)]), a) && Doubles(src, t, steps + ([Go(1)] + [Go(0)]), a)
  }

  lemma FreedNamesCanDouble(x: string)
    ensures exists src, t, steps, a, b :: IsStart(t) && DoublesUnseen(src, t, steps, a, b)
  {
    var src, t, steps := TwoBindings(Slugs.Candidate(x, 2)), TwoServices(x, Slugs.Candidate(x, 2)), FreedName(1, 2, 4);
    ServicesOfStart(x);
    ServicesCross(x);
    CrossingDoubles(src, t, 1, 2, x, 3, 4);
    assert DoublesUnseen(src, t, steps, 1, 2);
  }

  lemma CrossingDoubles(src: Sources, t: Tables, a: Id, b: Id, x: string, p: Id, i: Id)
    requires Supplied(t) && Crossing(src, t, a, b, x, p, i)
    ensures DoublesUnseen(src, t, FreedName(a, b, i), a, b)
  {
    FreedNameGivesTwoServices(src, t, a, b, x, p, i);
    var w := Run(src, Start(t), FreedName(a, b, i));
    assert 0 in {0, 1} && 1 in {0, 1};
    RunOn(src, Start(t), FreedName(a, b, i), [Go(0)] + [Go(1)]);
    RunOn(src, Start(t), FreedName(a, b, i), [Go(1)] + [Go(0)]);
  }

  ghost predicate Repeats(src: Sources, t: Tables, steps: seq<Step>, b: Id, i: Id, j: Id) {
    IsCopiedAgain(Run(src, Start(t), steps), b, i, j)
  }

  lemma CopyAgainRepeats(src: Sources, t: Tables, a: Id, b: Id)
    requires Supplied(t) && Untouched(src, t, a, b) && TwoNamesFree(src, t, a)
    ensures Repeats(src, t, CopyAgain(a, b, t.next + 5), b, t.next + 5, t.next + 8)
  {
    RemovedBindingIsCopiedAgain(src, t, a, b);
  }

  /** A binding whose copy was removed is copied again in a run from empty tables. */
  lemma BindingsCanRepeat(slug: string)
    ensures exists steps, i, j :: Repeats(TwoBindings(slug), EMPTY, steps, 2, i, j)
  {
    EmptyTables(slug);
    CopyAgainRepeats(TwoBindings(slug), EMPTY, 1, 2);
  }
}
