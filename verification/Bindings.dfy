/** The fourth phase of the start-up migration: node bindings are attached to the
    service that exists, or get a triple of their own, written step by step with
    compensation (backend/src/db.rs, `migrate_node_service_bindings`). */
module Bindings {
  import opened Options
  import opened UserTables
  import opened Copies

  /** `update_one`: one of the matching services gets the node of the binding. */
  function Attach(t: Tables, b: Binding): Tables {
    var matches := Siblings(t, b.user, b.service);
    if matches == {} then t
    else
      var i := Least(matches);
      t.(services := t.services[i := t.services[i].(node := Some(b.node), priority := b.priority)])
  }

  function BindingUrl(entry: CatalogEntry): string {
    if entry.serviceType != "ssh" then entry.baseUrl
    else if entry.sshAddress.Some? then "ssh://" + entry.sshAddress.value
    else ""
  }

  /** The triple for a binding without a service. Only the key is searched for an
      earlier copy of the binding, not the service. */
  function DraftBinding(src: Sources, t: Tables, id: Id): Option<Draft>
    requires id in src.bindings
  {
    var b := src.bindings[id];
    if KeyFrom(t, BINDING_SOURCE, id) || b.service !in src.catalog then None
    else
      var entry := src.catalog[b.service];
      match ResolveSlug(t, b.user, entry.slug)
      case None => None
      case Some(slug) =>
        Some(Draft(b.user, BindingUrl(entry), Some(b.service), slug, None, Some(b.node), b.priority, BINDING_SOURCE, id))
  }

  /** Tables after a step, and whether the phase goes on. */
  datatype Outcome = Outcome(tables: Tables, ok: bool)

  /** A service row left over from an earlier copy of the same binding breaks the
      unique index on (source, source id): the copy is undone and the phase ends. */
  function CopyBinding(src: Sources, t: Tables, id: Id): Outcome
    requires id in src.bindings
  {
    var b := src.bindings[id];
    if Siblings(t, b.user, b.service) != {} then Outcome(Attach(t, b), true)
    else match DraftBinding(src, t, id)
      case None => Outcome(t, true)
      case Some(d) => if ServiceFrom(t, BINDING_SOURCE, id) then Outcome(t, false) else Outcome(Insert(t, d), true)
  }

  function CopyBindings(src: Sources, t: Tables, ids: seq<Id>): Outcome
    requires forall i :: i in ids ==> i in src.bindings
    decreases ids
  {
    if ids == [] then Outcome(t, true)
    else
      var before := CopyBindings(src, t, ids[..|ids| - 1]);
      if before.ok then CopyBinding(src, before.tables, ids[|ids| - 1]) else before
  }

  // ---- attaching: the last binding of a (user, service) pair wins ----

  predicate SamePair(a: Binding, b: Binding) {
    a.user == b.user && a.service == b.service
  }

  lemma AttachKeepsSiblings(t: Tables, b: Binding)
    ensures forall user, c :: Siblings(Attach(t, b), user, c) == Siblings(t, user, c)
    ensures Grows(t, Attach(t, b))
    ensures Supplied(t) ==> Supplied(Attach(t, b))
    ensures Attach(t, b).next == t.next
  {
  }

  lemma LaterAttachWins(t: Tables, a: Binding, b: Binding)
    requires SamePair(a, b)
    ensures Attach(Attach(t, a), b) == Attach(t, b)
  {
    AttachKeepsSiblings(t, a);
  }

  lemma OtherAttachesCommute(t: Tables, a: Binding, b: Binding)
    requires !SamePair(a, b)
    ensures Attach(Attach(t, a), b) == Attach(Attach(t, b), a)
  {
    AttachKeepsSiblings(t, a);
    AttachKeepsSiblings(t, b);
    var ms, ns := Siblings(t, a.user, a.service), Siblings(t, b.user, b.service);
    if ms != {} && ns != {} {
      assert Least(ms) != Least(ns);
    }
  }

  /** Of two bindings for the same pair the one attached last wins, so that their order
      shows exactly when they name different nodes or priorities. */
  lemma AttachOrderShows(t: Tables, a: Binding, b: Binding)
    requires SamePair(a, b) && Siblings(t, b.user, b.service) != {}
    ensures Attach(Attach(t, a), b) == Attach(Attach(t, b), a) <==> a.node == b.node && a.priority == b.priority
  {
    LaterAttachWins(t, a, b);
    LaterAttachWins(t, b, a);
    var i := Least(Siblings(t, b.user, b.service));
    assert Attach(t, b).services[i].node == Some(b.node) && Attach(t, a).services[i].node == Some(a.node);
  }

  function AttachAll(src: Sources, t: Tables, ids: seq<Id>): Tables
    requires forall i :: i in ids ==> i in src.bindings
    decreases ids
  {
    if ids == [] then t
    else Attach(AttachAll(src, t, ids[..|ids| - 1]), src.bindings[ids[|ids| - 1]])
  }

  lemma {:induction false} AttachAllKeepsSiblings(src: Sources, t: Tables, ids: seq<Id>)
    requires forall i :: i in ids ==> i in src.bindings
    ensures forall user, c :: Siblings(AttachAll(src, t, ids), user, c) == Siblings(t, user, c)
    ensures Grows(t, AttachAll(src, t, ids))
    ensures Supplied(t) ==> Supplied(AttachAll(src, t, ids))
    ensures AttachAll(src, t, ids).next == t.next
    decreases ids
  {
    if ids != [] {
      var front, last := ids[..|ids| - 1], src.bindings[ids[|ids| - 1]];
      AttachAllKeepsSiblings(src, t, front);
      AttachKeepsSiblings(AttachAll(src, t, front), last);
      GrowsTransitive(t, AttachAll(src, t, front), AttachAll(src, t, ids));
    }
  }

  /** An attach in front of any others is forgotten once it is repeated behind them. */
  lemma {:induction false} RepeatedAttachIsForgotten(src: Sources, t: Tables, b: Binding, ids: seq<Id>)
    requires forall i :: i in ids ==> i in src.bindings
    ensures Attach(AttachAll(src, Attach(t, b), ids), b) == Attach(AttachAll(src, t, ids), b)
    decreases ids
  {
    if ids == [] {
      LaterAttachWins(t, b, b);
    } else {
      var front, x := ids[..|ids| - 1], src.bindings[ids[|ids| - 1]];
      var u, v := AttachAll(src, Attach(t, b), front), AttachAll(src, t, front);
      RepeatedAttachIsForgotten(src, t, b, front);
      if SamePair(x, b) {
        LaterAttachWins(u, x, b);
        LaterAttachWins(v, x, b);
      } else {
        OtherAttachesCommute(u, x, b);
        OtherAttachesCommute(v, x, b);
      }
    }
  }

  predicate IsTripleFor(d: Draft, b: Binding) {
    d.user == b.user && d.catalog == Some(b.service) && d.node == Some(b.node) && d.priority == b.priority
  }

  lemma OwnAttachIsIdle(t: Tables, d: Draft, b: Binding)
    requires Supplied(t) && IsTripleFor(d, b) && Siblings(t, b.user, b.service) == {}
    ensures Attach(Insert(t, d), b) == Insert(t, d)
  {
    CommitSibling(t, d, b);
  }

  lemma CommitSibling(t: Tables, d: Draft, b: Binding)
    requires Supplied(t) && IsTripleFor(d, b) && Siblings(t, b.user, b.service) == {}
    ensures Siblings(Insert(t, d), b.user, b.service) == {t.next + 2}
  {
  }

  lemma InsertCommutesWithOthers(t: Tables, d: Draft, b: Binding, x: Binding)
    requires Supplied(t) && IsTripleFor(d, b) && !SamePair(x, b)
    ensures Attach(Insert(t, d), x) == Insert(Attach(t, x), d)
  {
    var matches := Siblings(t, x.user, x.service);
    assert Siblings(Insert(t, d), x.user, x.service) == matches;
    if matches != {} {
      var i := Least(matches);
      var row := t.services[i].(node := Some(x.node), priority := x.priority);
      UpdatesCommute(t.services, i, row, t.next + 2, DraftService(d, t.next, t.next + 1));
    }
  }

  lemma UpdatesCommute<K, V>(m: map<K, V>, i: K, v: V, k: K, w: V)
    requires i != k
    ensures m[i := v][k := w] == m[k := w][i := v]
  {
  }

  /** The triple a binding created survives a rerun of the bindings before it,
      as soon as the rerun reaches the binding itself. */
  lemma {:induction false} CreatedTripleIsRestored(src: Sources, t: Tables, d: Draft, b: Binding, ids: seq<Id>)
    requires forall i :: i in ids ==> i in src.bindings
    requires Supplied(t) && IsTripleFor(d, b) && Siblings(t, b.user, b.service) == {}
    ensures Attach(AttachAll(src, Insert(t, d), ids), b) == Insert(AttachAll(src, t, ids), d)
    decreases ids
  {
    if ids == [] {
      OwnAttachIsIdle(t, d, b);
    } else {
      var front, x := ids[..|ids| - 1], src.bindings[ids[|ids| - 1]];
      var u, v := AttachAll(src, Insert(t, d), front), AttachAll(src, t, front);
      CreatedTripleIsRestored(src, t, d, b, front);
      AttachAllKeepsSiblings(src, t, front);
      if SamePair(x, b) {
        LaterAttachWins(u, x, b);
      } else {
        OtherAttachesCommute(u, x, b);
        InsertCommutesWithOthers(v, d, b, x);
      }
    }
  }

  // ---- repeating the phase ----

  lemma BindingCopyGrows(src: Sources, t: Tables, id: Id)
    requires Supplied(t) && id in src.bindings
    ensures Supplied(CopyBinding(src, t, id).tables) && Grows(t, CopyBinding(src, t, id).tables)
    ensures !CopyBinding(src, t, id).ok ==> CopyBinding(src, t, id).tables == t
  {
    AttachKeepsSiblings(t, src.bindings[id]);
    if Siblings(t, src.bindings[id].user, src.bindings[id].service) == {} && DraftBinding(src, t, id).Some? {
      InsertGrows(t, DraftBinding(src, t, id).value);
    }
  }

  /** A binding that was processed only attaches from then on. */
  lemma BindingStaysSettled(src: Sources, t: Tables, u: Tables, id: Id)
    requires Supplied(t) && id in src.bindings && CopyBinding(src, t, id).ok
    requires Grows(CopyBinding(src, t, id).tables, u)
    ensures CopyBinding(src, u, id) == Outcome(Attach(u, src.bindings[id]), true)
  {
    var b := src.bindings[id];
    var r := CopyBinding(src, t, id).tables;
    GrowthKeepsGuards(r, u);
    if Siblings(t, b.user, b.service) != {} {
      AttachKeepsSiblings(t, b);
      assert Siblings(r, b.user, b.service) != {};
    } else if DraftBinding(src, t, id).Some? {
      CommitSibling(t, DraftBinding(src, t, id).value, b);
      assert t.next + 2 in Siblings(u, b.user, b.service);
    }
  }

  ghost predicate OnlyAttaches(src: Sources, t: Tables, ids: seq<Id>)
    requires forall i :: i in ids ==> i in src.bindings
  {
    forall u, i :: Grows(t, u) && i in ids ==> CopyBinding(src, u, i) == Outcome(Attach(u, src.bindings[i]), true)
  }

  lemma {:induction false} SettledBindingsAttach(src: Sources, t: Tables, ids: seq<Id>)
    requires forall i :: i in ids ==> i in src.bindings
    requires OnlyAttaches(src, t, ids)
    ensures CopyBindings(src, t, ids) == Outcome(AttachAll(src, t, ids), true)
    decreases ids
  {
    if ids != [] {
      var front := ids[..|ids| - 1];
      assert forall i :: i in front ==> i in ids;
      SettledBindingsAttach(src, t, front);
      AttachAllKeepsSiblings(src, t, front);
    }
  }

  /** One more binding: what the first run left is what a rerun reproduces. */
  lemma RerunReproducesStep(src: Sources, t: Tables, front: seq<Id>, id: Id)
    requires Supplied(t) && id in src.bindings && forall i :: i in front ==> i in src.bindings
    requires AttachAll(src, t, front) == t && CopyBinding(src, t, id).ok
    ensures Attach(AttachAll(src, CopyBinding(src, t, id).tables, front), src.bindings[id]) == CopyBinding(src, t, id).tables
  {
    var b := src.bindings[id];
    if Siblings(t, b.user, b.service) != {} {
      RepeatedAttachIsForgotten(src, t, b, front);
    } else if DraftBinding(src, t, id).Some? {
      CreatedTripleIsRestored(src, t, DraftBinding(src, t, id).value, b, front);
    }
  }

  /** Running the phase on its own result changes nothing, and it stops at the same
      binding if it stopped the first time. */
  lemma {:induction false} BindingPhaseRepeats(src: Sources, t: Tables, ids: seq<Id>)
    requires Supplied(t) && forall i :: i in ids ==> i in src.bindings
    ensures var r := CopyBindings(src, t, ids);
            && Supplied(r.tables) && Grows(t, r.tables)
            && CopyBindings(src, r.tables, ids) == r
            && (r.ok ==> OnlyAttaches(src, r.tables, ids) && AttachAll(src, r.tables, ids) == r.tables)
    decreases ids
  {
    if ids != [] {
      var front, id := ids[..|ids| - 1], ids[|ids| - 1];
      BindingPhaseRepeats(src, t, front);
      var before := CopyBindings(src, t, front);
      if before.ok {
        var after := CopyBinding(src, before.tables, id);
        BindingCopyGrows(src, before.tables, id);
        GrowsTransitive(t, before.tables, after.tables);
        if after.ok {
          RerunReproducesStep(src, before.tables, front, id);
          forall u, i | Grows(after.tables, u) && i in ids
            ensures CopyBinding(src, u, i) == Outcome(Attach(u, src.bindings[i]), true)
          {
            if i == id {
              BindingStaysSettled(src, before.tables, u, id);
            } else {
              GrowsTransitive(before.tables, after.tables, u);
            }
          }
          SettledBindingsAttach(src, after.tables, ids);
        }
      }
    }
  }

  // ---- what attaching a list of bindings comes to ----

  /** The last binding of a pair in the list. */
  function LastFor(src: Sources, ids: seq<Id>, user: Id, service: Id): (b: Option<Binding>)
    requires forall i :: i in ids ==> i in src.bindings
    ensures b.Some? ==> b.value.user == user && b.value.service == service
    decreases ids
  {
    if ids == [] then None
    else
      var b := src.bindings[ids[|ids| - 1]];
      if b.user == user && b.service == service then Some(b) else LastFor(src, ids[..|ids| - 1], user, service)
  }

  lemma {:induction false} LastForExists(src: Sources, ids: seq<Id>, user: Id, service: Id)
    requires forall i :: i in ids ==> i in src.bindings
    ensures LastFor(src, ids, user, service).Some? <==>
            exists i :: i in ids && src.bindings[i].user == user && src.bindings[i].service == service
    decreases ids
  {
    if ids != [] {
      LastForExists(src, ids[..|ids| - 1], user, service);
      assert ids == ids[..|ids| - 1] + [ids[|ids| - 1]];
    }
  }

  /** The service is the one that bindings of its pair attach to. */
  predicate Takes(t: Tables, i: Id) {
    && i in t.services && t.services[i].active && t.services[i].catalog.Some?
    && i in Siblings(t, t.services[i].user, t.services[i].catalog.value)
    && i == Least(Siblings(t, t.services[i].user, t.services[i].catalog.value))
  }

  function Placed(src: Sources, t: Tables, ids: seq<Id>, i: Id): Service
    requires (forall k :: k in ids ==> k in src.bindings) && i in t.services
  {
    var s := t.services[i];
    if !Takes(t, i) then s
    else match LastFor(src, ids, s.user, s.catalog.value)
      case None => s
      case Some(b) => s.(node := Some(b.node), priority := b.priority)
  }

  function PlacedAll(src: Sources, t: Tables, ids: seq<Id>): map<Id, Service>
    requires forall k :: k in ids ==> k in src.bindings
  {
    map i | i in t.services :: Placed(src, t, ids, i)
  }

  lemma AttachPlaces(t: Tables, b: Binding, i: Id)
    requires i in t.services
    ensures Attach(t, b).services.Keys == t.services.Keys
    ensures Attach(t, b).services[i] ==
      if Takes(t, i) && b.user == t.services[i].user && Some(b.service) == t.services[i].catalog
      then t.services[i].(node := Some(b.node), priority := b.priority) else t.services[i]
  {
    var matches := Siblings(t, b.user, b.service);
    if matches != {} {
      var k := Least(matches);
      assert k in matches;
    }
  }

  lemma AttachKeepsTakers(t: Tables, b: Binding, i: Id)
    requires i in t.services
    ensures Takes(Attach(t, b), i) <==> Takes(t, i)
    ensures Attach(t, b).services[i].user == t.services[i].user && Attach(t, b).services[i].catalog == t.services[i].catalog
  {
    AttachKeepsSiblings(t, b);
    AttachPlaces(t, b, i);
  }

  lemma {:induction false} AttachAllPlaces(src: Sources, t: Tables, ids: seq<Id>, i: Id)
    requires (forall k :: k in ids ==> k in src.bindings) && i in t.services
    ensures var u := AttachAll(src, t, ids);
      && i in u.services && u.services[i] == Placed(src, t, ids, i) && (Takes(u, i) <==> Takes(t, i))
    decreases ids
  {
    if ids != [] {
      var front, b := ids[..|ids| - 1], src.bindings[ids[|ids| - 1]];
      var u := AttachAll(src, t, front);
      AttachAllPlaces(src, t, front, i);
      AttachPlaces(u, b, i);
      AttachKeepsTakers(u, b, i);
    }
  }

  /** Attaching a list gives every taker the node and priority of the last binding of its
      pair, and changes nothing else. */
  lemma AttachAllMeaning(src: Sources, t: Tables, ids: seq<Id>)
    requires forall k :: k in ids ==> k in src.bindings
    ensures AttachAll(src, t, ids) == t.(services := PlacedAll(src, t, ids))
  {
    AttachAllTouchesServices(src, t, ids);
    forall i | i in t.services
      ensures AttachAll(src, t, ids).services[i] == Placed(src, t, ids, i)
    {
      AttachAllPlaces(src, t, ids, i);
    }
  }

  lemma {:induction false} AttachAllTouchesServices(src: Sources, t: Tables, ids: seq<Id>)
    requires forall k :: k in ids ==> k in src.bindings
    ensures AttachAll(src, t, ids).services.Keys == t.services.Keys
    ensures AttachAll(src, t, ids) == t.(services := AttachAll(src, t, ids).services)
    decreases ids
  {
    if ids != [] {
      AttachAllTouchesServices(src, t, ids[..|ids| - 1]);
    }
  }

  /** The last bindings of a pair in two lists, as far as a second list has one, say the same. */
  predicate SameLast(src: Sources, a: seq<Id>, b: seq<Id>, user: Id, service: Id)
    requires (forall k :: k in a ==> k in src.bindings) && (forall k :: k in b ==> k in src.bindings)
  {
    match LastFor(src, b, user, service)
    case None => true
    case Some(y) =>
      match LastFor(src, a, user, service)
      case None => false
      case Some(x) => x.node == y.node && x.priority == y.priority
  }

  lemma LeastTakes(t: Tables, user: Id, service: Id)
    requires Siblings(t, user, service) != {}
    ensures var i := Least(Siblings(t, user, service));
      Takes(t, i) && t.services[i].user == user && t.services[i].catalog == Some(service)
  {
    var i := Least(Siblings(t, user, service));
    assert i in Siblings(t, user, service);
  }

  /** A second list changes nothing after a first one exactly when, for every pair with a
      service, its last binding names the node and priority of the first list's last one. */
  lemma AnotherListIsIdleExactly(src: Sources, t: Tables, a: seq<Id>, b: seq<Id>)
    requires (forall k :: k in a ==> k in src.bindings) && (forall k :: k in b ==> k in a)
    requires AttachAll(src, t, a) == t
    ensures AttachAll(src, t, b) == t <==>
            forall user: Id, service: Id :: Siblings(t, user, service) != {} ==> SameLast(src, a, b, user, service)
  {
    AttachAllMeaning(src, t, a);
    AttachAllMeaning(src, t, b);
    if AttachAll(src, t, b) == t {
      forall user: Id, service: Id | Siblings(t, user, service) != {}
        ensures SameLast(src, a, b, user, service)
      {
        BothPlaceTheSame(src, t, a, b, user, service);
      }
    }
    if forall user: Id, service: Id :: Siblings(t, user, service) != {} ==> SameLast(src, a, b, user, service) {
      forall i | i in t.services
        ensures Placed(src, t, b, i) == t.services[i]
      {
        TakerStays(src, t, a, b, i);
      }
      assert PlacedAll(src, t, b) == t.services;
    }
  }

  lemma BothPlaceTheSame(src: Sources, t: Tables, a: seq<Id>, b: seq<Id>, user: Id, service: Id)
    requires (forall k :: k in a ==> k in src.bindings) && (forall k :: k in b ==> k in a)
    requires PlacedAll(src, t, a) == t.services && PlacedAll(src, t, b) == t.services
    requires Siblings(t, user, service) != {}
    ensures SameLast(src, a, b, user, service)
  {
    LeastTakes(t, user, service);
    var i := Least(Siblings(t, user, service));
    assert Placed(src, t, a, i) == PlacedAll(src, t, a)[i] && Placed(src, t, b, i) == PlacedAll(src, t, b)[i];
    LastForExists(src, a, user, service);
    LastForExists(src, b, user, service);
  }

  lemma TakerStays(src: Sources, t: Tables, a: seq<Id>, b: seq<Id>, i: Id)
    requires (forall k :: k in a ==> k in src.bindings) && (forall k :: k in b ==> k in a)
    requires PlacedAll(src, t, a) == t.services && i in t.services
    requires forall user: Id, service: Id :: Siblings(t, user, service) != {} ==> SameLast(src, a, b, user, service)
    ensures Placed(src, t, b, i) == t.services[i]
  {
    if Takes(t, i) {
      var s := t.services[i];
      assert SameLast(src, a, b, s.user, s.catalog.value);
      assert Placed(src, t, a, i) == PlacedAll(src, t, a)[i];
    }
  }

  // ---- when a list of bindings leaves the tables alone ----

  /** The binding gets a triple of its own. */
  predicate Creates(src: Sources, t: Tables, id: Id)
    requires id in src.bindings
  {
    var b := src.bindings[id];
    Siblings(t, b.user, b.service) == {} && DraftBinding(src, t, id).Some? && !ServiceFrom(t, BINDING_SOURCE, id)
  }

  /** The binding ends the phase: a service from it is left, but no key. */
  predicate Blocks(src: Sources, t: Tables, id: Id)
    requires id in src.bindings
  {
    var b := src.bindings[id];
    Siblings(t, b.user, b.service) == {} && DraftBinding(src, t, id).Some? && ServiceFrom(t, BINDING_SOURCE, id)
  }

  /** How many bindings at the front of the list neither create nor end anything. */
  function PlainLength(src: Sources, t: Tables, ids: seq<Id>): (n: nat)
    requires forall i :: i in ids ==> i in src.bindings
    ensures n <= |ids|
    ensures forall k :: 0 <= k < n ==> !Creates(src, t, ids[k]) && !Blocks(src, t, ids[k])
    ensures n < |ids| ==> Creates(src, t, ids[n]) || Blocks(src, t, ids[n])
    decreases ids
  {
    if ids == [] || Creates(src, t, ids[0]) || Blocks(src, t, ids[0]) then 0 else 1 + PlainLength(src, t, ids[1..])
  }

  /** Tables that differ in nodes and priorities alone. */
  ghost predicate SameButNodes(t: Tables, u: Tables) {
    && u == t.(services := u.services) && u.services.Keys == t.services.Keys
    && forall i :: i in t.services ==> SameButNode(t.services[i], u.services[i])
  }

  lemma NodesDecideNothing(src: Sources, t: Tables, u: Tables, id: Id)
    requires SameButNodes(t, u) && id in src.bindings
    ensures Creates(src, u, id) <==> Creates(src, t, id)
    ensures Blocks(src, u, id) <==> Blocks(src, t, id)
  {
    SameNames(t, u, src.bindings[id].user, src.bindings[id].service, id);
  }

  lemma PlainBindingAttaches(src: Sources, t: Tables, id: Id)
    requires id in src.bindings && !Creates(src, t, id) && !Blocks(src, t, id)
    ensures CopyBinding(src, t, id) == Outcome(Attach(t, src.bindings[id]), true)
  {
  }

  lemma SameNames(t: Tables, u: Tables, user: Id, c: Id, id: Id)
    requires SameButNodes(t, u)
    ensures ActiveSlugs(u, user) == ActiveSlugs(t, user) && Siblings(u, user, c) == Siblings(t, user, c)
    ensures ServiceFrom(u, BINDING_SOURCE, id) <==> ServiceFrom(t, BINDING_SOURCE, id)
  {
    SlugsKept(t, u, user);
    SlugsKept(u, t, user);
    assert forall i :: i in t.services ==> SameButNode(t.services[i], u.services[i]);
  }

  lemma SlugsKept(t: Tables, u: Tables, user: Id)
    requires forall i :: i in t.services ==> i in u.services && SameButNode(t.services[i], u.services[i])
    ensures ActiveSlugs(t, user) <= ActiveSlugs(u, user)
  {
    forall slug | slug in ActiveSlugs(t, user)
      ensures slug in ActiveSlugs(u, user)
    {
      var i :| i in t.services && t.services[i].active && t.services[i].user == user && t.services[i].slug == slug;
      assert SameButNode(t.services[i], u.services[i]);
    }
  }

  lemma AttachedDiffersInNodes(src: Sources, t: Tables, ids: seq<Id>)
    requires forall i :: i in ids ==> i in src.bindings
    ensures SameButNodes(t, AttachAll(src, t, ids))
  {
    AttachAllMeaning(src, t, ids);
  }

  lemma {:induction false} PlainListAttaches(src: Sources, t: Tables, ids: seq<Id>)
    requires forall i :: i in ids ==> i in src.bindings && !Creates(src, t, i) && !Blocks(src, t, i)
    ensures CopyBindings(src, t, ids) == Outcome(AttachAll(src, t, ids), true)
    decreases ids
  {
    if ids != [] {
      PlainListAttaches(src, t, ids[..|ids| - 1]);
      AttachedDiffersInNodes(src, t, ids[..|ids| - 1]);
      NodesDecideNothing(src, t, AttachAll(src, t, ids[..|ids| - 1]), ids[|ids| - 1]);
      PlainBindingAttaches(src, AttachAll(src, t, ids[..|ids| - 1]), ids[|ids| - 1]);
    }
  }

  lemma {:induction false} StoppedListStays(src: Sources, t: Tables, ids: seq<Id>, n: nat)
    requires (forall i :: i in ids ==> i in src.bindings) && n <= |ids|
    ensures !CopyBindings(src, t, ids[..n]).ok ==> CopyBindings(src, t, ids) == CopyBindings(src, t, ids[..n])
    ensures CopyBindings(src, t, ids).tables.next >= CopyBindings(src, t, ids[..n]).tables.next
    decreases |ids| - n
  {
    if n < |ids| {
      StoppedListStays(src, t, ids, n + 1);
      assert ids[..n + 1][..n] == ids[..n];
      NextNeverFalls(src, CopyBindings(src, t, ids[..n]).tables, ids[n]);
    } else {
      assert ids[..n] == ids;
    }
  }

  lemma NextNeverFalls(src: Sources, t: Tables, id: Id)
    requires id in src.bindings
    ensures CopyBinding(src, t, id).tables.next >= t.next
    ensures CopyBinding(src, t, id).tables.next > t.next <==> Creates(src, t, id)
    ensures CopyBinding(src, t, id).ok <==> !Blocks(src, t, id)
    ensures Blocks(src, t, id) ==> CopyBinding(src, t, id).tables == t
  {
  }

  /** The service that bindings of the pair attach to has what the last of them names. */
  predicate LastFits(src: Sources, t: Tables, ids: seq<Id>, user: Id, service: Id)
    requires forall i :: i in ids ==> i in src.bindings
  {
    Siblings(t, user, service) != {} ==>
      match LastFor(src, ids, user, service)
      case None => true
      case Some(b) =>
        var s := t.services[Least(Siblings(t, user, service))];
        s.node == Some(b.node) && s.priority == b.priority
  }

  lemma AttachesNothingExactly(src: Sources, t: Tables, ids: seq<Id>)
    requires forall i :: i in ids ==> i in src.bindings
    ensures AttachAll(src, t, ids) == t <==> forall user: Id, service: Id :: LastFits(src, t, ids, user, service)
  {
    AttachAllMeaning(src, t, ids);
    if AttachAll(src, t, ids) == t {
      forall user: Id, service: Id | Siblings(t, user, service) != {}
        ensures LastFits(src, t, ids, user, service)
      {
        LeastTakes(t, user, service);
        var i := Least(Siblings(t, user, service));
        assert Placed(src, t, ids, i) == PlacedAll(src, t, ids)[i];
      }
    }
    if forall user: Id, service: Id :: LastFits(src, t, ids, user, service) {
      forall i | i in t.services
        ensures Placed(src, t, ids, i) == t.services[i]
      {
        if Takes(t, i) {
          assert LastFits(src, t, ids, t.services[i].user, t.services[i].catalog.value);
        }
      }
      assert PlacedAll(src, t, ids) == t.services;
    }
  }

  /** Up to the first binding that ends the phase none creates anything, and attaching them
      repeats what is there. */
  ghost predicate IsIdle(src: Sources, t: Tables, ids: seq<Id>)
    requires forall i :: i in ids ==> i in src.bindings
  {
    var n := PlainLength(src, t, ids);
    && (n < |ids| ==> Blocks(src, t, ids[n]))
    && forall user: Id, service: Id :: LastFits(src, t, ids[..n], user, service)
  }

  /** For any list of bindings on any tables: the phase leaves them as they are exactly when
      the list is idle, and then it ends well exactly when no binding of it ends the phase. */
  lemma IdleExactly(src: Sources, t: Tables, ids: seq<Id>)
    requires forall i :: i in ids ==> i in src.bindings
    ensures CopyBindings(src, t, ids).tables == t <==> IsIdle(src, t, ids)
    ensures IsIdle(src, t, ids) ==> (CopyBindings(src, t, ids).ok <==> PlainLength(src, t, ids) == |ids|)
  {
    var n := PlainLength(src, t, ids);
    forall i | i in ids[..n]
      ensures !Creates(src, t, i) && !Blocks(src, t, i)
    {
    }
    PlainListAttaches(src, t, ids[..n]);
    AttachesNothingExactly(src, t, ids[..n]);
    var v := AttachAll(src, t, ids[..n]);
    if n < |ids| {
      AttachedDiffersInNodes(src, t, ids[..n]);
      NodesDecideNothing(src, t, v, ids[n]);
      assert ids[..n + 1][..n] == ids[..n] && CopyBindings(src, t, ids[..n + 1]) == CopyBinding(src, v, ids[n]);
      NextNeverFalls(src, v, ids[n]);
      StoppedListStays(src, t, ids, n + 1);
    } else {
      assert ids[..n] == ids;
    }
  }
}
