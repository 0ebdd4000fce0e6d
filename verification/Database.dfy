/** The migration as it runs against the database: loops over source rows that
    write the three collections one row at a time, or one transaction at a time
    (backend/src/db.rs, backend/src/cleanup_cli.rs). */
module Database {
  import opened Options
  import opened UserTables
  import opened Cleanup
  import opened Copies
  import opened Bindings
  import opened Pipeline
  import opened Paging

  const TOKEN_PAGE: nat := 32
  const CONNECTION_PAGE: nat := 64

  class Store {
    var endpoints: map<Id, Endpoint>
    var keys: map<Id, ApiKey>
    var services: map<Id, Service>
    var next: Id

    /** Whether the references were intact after every single write so far, that
        is, wherever a crash could have left the tables. */
    ghost var intactSoFar: bool

    ghost function Contents(): Tables
      reads this
    {
      Tables(endpoints, keys, services, next)
    }

    ghost predicate Sound()
      reads this
    {
      intactSoFar && SoundTables(Contents())
    }

    constructor (endpoints: map<Id, Endpoint>, keys: map<Id, ApiKey>, services: map<Id, Service>, next: Id)
      requires SoundTables(Tables(endpoints, keys, services, next))
      ensures Contents() == Tables(endpoints, keys, services, next) && Sound()
    {
      this.endpoints, this.keys, this.services, this.next := endpoints, keys, services, next;
      intactSoFar := true;
    }

    /** One write to one collection. */
    method Perform(w: Write)
      modifies this
      ensures Contents() == Apply(old(Contents()), w)
      ensures intactSoFar <==> old(intactSoFar) && Intact(Contents())
    {
      match w {
        case PutEndpoint(i, e) => endpoints := endpoints[i := e];
        case PutKey(i, k) => keys := keys[i := k];
        case PutService(i, s) => services := services[i := s];
        case DropEndpoint(i) => endpoints := endpoints - {i};
        case DropKey(i) => keys := keys - {i};
        case DropService(i) => services := services - {i};
      }
      intactSoFar := intactSoFar && Intact(Contents());
    }

    // ---- phase 1 ----

    method CleanupDuplicates(scan: seq<Row>) returns (cleaned: nat)
      requires IsScan(Contents(), scan)
      modifies this
      ensures Contents() == Clean(old(Contents()), scan)
      ensures cleaned == |old(services)| - |services|
      ensures old(Sound()) ==> Sound()
    {
      cleaned := 0;
      var k := 0;
      assert scan[0..] == scan;
      while k < |scan|
        invariant k <= |scan|
        invariant RowsOf(Contents(), scan[k..])
        invariant Clean(old(Contents()), scan) == Clean(Contents(), scan[k..])
        invariant cleaned == |old(services)| - |services|
        invariant old(Sound()) ==> Sound()
      {
        assert scan[k..][0] == scan[k] && scan[k..][1..] == scan[k + 1..];
        StepKeepsRest(Contents(), scan[k..]);
        var deleted := CleanupRow(scan[k].0, scan[k].1);
        cleaned := if deleted then cleaned + 1 else cleaned;
        k := k + 1;
      }
    }

    method CleanupRow(i: Id, s: Service) returns (deleted: bool)
      requires i in services && services[i] == s && Selected(s)
      modifies this
      ensures Contents() == CleanOne(old(Contents()), (i, s))
      ensures |services| == |old(services)| - if deleted then 1 else 0
      ensures old(Sound()) ==> Sound()
    {
      match Slugs.SuffixBase(s.slug) {
        case None => deleted := false;
        case Some(base) =>
          deleted := exists j :: j in services && IsBaseOf(services[j], s, base);
          if deleted {
            DroppedRowCounts(services, i);
            DeleteOwned(i, s);
          }
      }
    }

    /** Service, endpoint, key, in this order. */
    method DeleteOwned(i: Id, s: Service)
      requires i in services && services[i] == s && IsMigrated(s)
      modifies this
      ensures Contents() == Remove(old(Contents()), i, s)
      ensures old(Sound()) ==> Sound()
    {
      if Sound() {
        RemovalStepsAreIntact(Contents(), i);
      }
      ghost var before, after := Contents(), Remove(Contents(), i, s);
      Perform(DropService(i));
      assert Contents() == Apply(before, DropService(i));
      Perform(DropEndpoint(s.endpoint));
      if s.key.Some? {
        Perform(DropKey(s.key.value));
      }
      assert Contents() == after;
    }

    // ---- phases 2 and 3 ----

    /** The transaction of a copy: one atomic step. */
    method CommitDraft(d: Draft) returns (committed: bool)
      modifies this
      ensures Contents() == Commit(old(Contents()), d)
      ensures next == old(next) + if committed then 3 else 0
      ensures old(Sound()) ==> Sound()
    {
      var t := Tables(endpoints, keys, services, next);
      if !Guards(t, d) || BreaksIndex(t, d) {
        return false;
      }
      ghost var after := Insert(t, d);
      if Sound() {
        InsertKeepsSound(t, d);
      }
      endpoints, keys, services, next :=
        endpoints[next := DraftEndpoint(d)], keys[next + 1 := DraftKey(d)],
        services[next + 2 := DraftService(d, next, next + 1)], next + 3;
      assert Contents() == after;
      intactSoFar := intactSoFar && Intact(after);
      committed := true;
    }

    method MigrateToken(src: Sources, id: Id) returns (migrated: bool)
      requires id in src.tokens
      modifies this
      ensures Contents() == CopyToken(src, old(Contents()), id)
      ensures next == old(next) + if migrated then 3 else 0
      ensures old(Sound()) ==> Sound()
    {
      migrated := false;
      var draft := DraftToken(src, Tables(endpoints, keys, services, next), id);
      if draft.Some? && TokenAdmitted(src, src.tokens[id]) {
        migrated := CommitDraft(draft.value);
      }
    }

    method MigrateTokenPage(src: Sources, page: seq<Id>) returns (migrated: nat)
      requires forall i :: i in page ==> i in src.tokens
      modifies this
      ensures Contents() == CopyTokens(src, old(Contents()), page)
      ensures next == old(next) + 3 * migrated
      ensures old(Sound()) ==> Sound()
    {
      migrated := 0;
      var j := 0;
      assert page[0..] == page;
      while j < |page|
        invariant j <= |page|
        invariant CopyTokens(src, old(Contents()), page) == CopyTokens(src, Contents(), page[j..])
        invariant next == old(next) + 3 * migrated
        invariant old(Sound()) ==> Sound()
      {
        assert page[j..][1..] == page[j + 1..];
        var copied := MigrateToken(src, page[j]);
        migrated := if copied then migrated + 1 else migrated;
        j := j + 1;
      }
    }

    method MigrateProviderTokens(src: Sources, ids: seq<Id>) returns (migrated: nat)
      requires Increasing(ids) && forall i :: i in ids <==> i in src.tokens
      modifies this
      ensures Contents() == CopyTokens(src, old(Contents()), ids)
      ensures next == old(next) + 3 * migrated
      ensures old(Sound()) ==> Sound()
    {
      var after: Option<Id> := None;
      ghost var k := 0;
      migrated := 0;
      while true
        invariant k <= |ids| && after == LastOf(ids[..k])
        invariant Contents() == CopyTokens(src, old(Contents()), ids[..k])
        invariant next == old(next) + 3 * migrated
        invariant old(Sound()) ==> Sound()
        decreases |ids| - k
      {
        var page := Page(ids, after, TOKEN_PAGE);
        NextPage(ids, k, TOKEN_PAGE);
        if page == [] {
          break;
        }
        TokensInTwoParts(src, old(Contents()), ids[..k], page);
        var copied := MigrateTokenPage(src, page);
        migrated := migrated + copied;
        after := LastOf(page);
        k := k + |page|;
      }
    }

    method MigrateConnection(src: Sources, id: Id) returns (migrated: bool)
      requires id in src.connections
      modifies this
      ensures Contents() == CopyConnection(src, old(Contents()), id)
      ensures next == old(next) + if migrated then 3 else 0
      ensures old(Sound()) ==> Sound()
    {
      migrated := false;
      var draft := DraftConnection(src, Tables(endpoints, keys, services, next), id);
      if draft.Some? && draft.value.user !in src.erased {
        migrated := CommitDraft(draft.value);
      }
    }

    method MigrateConnectionPage(src: Sources, page: seq<Id>) returns (migrated: nat)
      requires forall i :: i in page ==> i in src.connections
      modifies this
      ensures Contents() == CopyConnections(src, old(Contents()), page)
      ensures next == old(next) + 3 * migrated
      ensures old(Sound()) ==> Sound()
    {
      migrated := 0;
      var j := 0;
      assert page[0..] == page;
      while j < |page|
        invariant j <= |page|
        invariant CopyConnections(src, old(Contents()), page) == CopyConnections(src, Contents(), page[j..])
        invariant next == old(next) + 3 * migrated
        invariant old(Sound()) ==> Sound()
      {
        assert page[j..][1..] == page[j + 1..];
        var copied := MigrateConnection(src, page[j]);
        migrated := if copied then migrated + 1 else migrated;
        j := j + 1;
      }
    }

    method MigrateServiceConnections(src: Sources, ids: seq<Id>) returns (migrated: nat)
      requires Increasing(ids) && forall i :: i in ids <==> i in src.connections && src.connections[i].active
      modifies this
      ensures Contents() == CopyConnections(src, old(Contents()), ids)
      ensures next == old(next) + 3 * migrated
      ensures old(Sound()) ==> Sound()
    {
      var after: Option<Id> := None;
      ghost var k := 0;
      migrated := 0;
      while true
        invariant k <= |ids| && after == LastOf(ids[..k])
        invariant Contents() == CopyConnections(src, old(Contents()), ids[..k])
        invariant next == old(next) + 3 * migrated
        invariant old(Sound()) ==> Sound()
        decreases |ids| - k
      {
        var page := Page(ids, after, CONNECTION_PAGE);
        NextPage(ids, k, CONNECTION_PAGE);
        if page == [] {
          break;
        }
        ConnectionsInTwoParts(src, old(Contents()), ids[..k], page);
        var copied := MigrateConnectionPage(src, page);
        migrated := migrated + copied;
        after := LastOf(page);
        k := k + |page|;
      }
    }

    // ---- phase 4 ----

    /** Three inserts, step by step. When the key or the service cannot be inserted,
        what was put before is deleted again and the copy fails. */
    method CreateTriple(d: Draft, keyFails: bool, serviceFails: bool) returns (ok: bool)
      requires Supplied(Contents())
      modifies this
      ensures ok <==> !keyFails && !serviceFails && !old(BreaksIndex(Contents(), d))
      ensures Contents() == if ok then Insert(old(Contents()), d) else old(Contents())
      ensures old(Sound()) ==> Sound()
    {
      var t := Tables(endpoints, keys, services, next);
      ghost var ws := InsertWrites(t, d);
      if Sound() {
        InsertionStepsAreIntact(t, d);
        InsertKeepsSound(t, d);
      }
      CompensationRestores(t, d);
      Perform(PutEndpoint(next, DraftEndpoint(d)));
      assert Contents() == Apply(t, ws[0]);
      if keyFails || KeyFrom(t, d.source, d.sourceId) {
        Perform(DropEndpoint(next));
        assert Contents() == t;
        return false;
      }
      Perform(PutKey(next + 1, DraftKey(d)));
      assert Contents() == Apply(Apply(t, ws[0]), ws[1]);
      if serviceFails || ServiceFrom(t, d.source, d.sourceId) || d.slug in ActiveSlugs(t, d.user) {
        Perform(DropEndpoint(next));
        assert Contents() == Apply(t, ws[1]);
        Perform(DropKey(next + 1));
        assert Contents() == t;
        return false;
      }
      Perform(PutService(next + 2, DraftService(d, next, next + 1)));
      next := next + 3;
      assert Contents() == Insert(t, d);
      ok := true;
    }

    method MigrateBinding(src: Sources, id: Id, keyFails: bool, serviceFails: bool) returns (ok: bool)
      requires id in src.bindings && Supplied(Contents())
      modifies this
      ensures ok ==> CopyBinding(src, old(Contents()), id) == Outcome(Contents(), true)
      ensures !ok <==> CopyFails(src, old(Contents()), id, keyFails || serviceFails)
      ensures !ok ==> Contents() == old(Contents())
      ensures Supplied(Contents())
      ensures old(Sound()) ==> Sound()
    {
      var b := src.bindings[id];
      var t := Tables(endpoints, keys, services, next);
      BindingCopyGrows(src, t, id);
      var matches := Siblings(t, b.user, b.service);
      if matches != {} {
        var i := Least(matches);
        AttachKeepsSound(t, b);
        Perform(PutService(i, services[i].(node := Some(b.node), priority := b.priority)));
        return true;
      }
      var draft := DraftBinding(src, t, id);
      if draft.None? {
        return true;
      }
      BindingDraftIsFree(src, t, id);
      ok := CreateTriple(draft.value, keyFails, serviceFails);
    }

    /** The loop over the bindings, with the inserts that fail for other reasons than an
        index. It stops at the first copy that fails; `done` bindings were copied before. */
    method MigrateNodeServiceBindings(src: Sources, ids: seq<Id>, keyFaults: set<Id>, serviceFaults: set<Id>)
      returns (ok: bool, ghost done: nat)
      requires forall i :: i in ids <==> i in src.bindings && src.bindings[i].active
      requires Supplied(Contents())
      modifies this
      ensures done <= |ids| && (ok <==> done == |ids|)
      ensures CopyBindings(src, old(Contents()), ids[..done]) == Outcome(Contents(), true)
      ensures !ok ==> CopyFails(src, Contents(), ids[done], ids[done] in keyFaults + serviceFaults)
      ensures keyFaults == {} && serviceFaults == {} ==>
                Outcome(Contents(), ok) == CopyBindings(src, old(Contents()), ids)
      ensures Supplied(Contents())
      ensures old(Sound()) ==> Sound()
    {
      ok := true;
      done := 0;
      var k := 0;
      while k < |ids| && ok
        invariant done <= k <= |ids| && (ok ==> done == k) && (!ok ==> done == k - 1)
        invariant CopyBindings(src, old(Contents()), ids[..done]) == Outcome(Contents(), true)
        invariant !ok ==> CopyFails(src, Contents(), ids[done], ids[done] in keyFaults + serviceFaults)
        invariant Supplied(Contents())
        invariant old(Sound()) ==> Sound()
      {
        OneMoreBinding(src, old(Contents()), ids, k, Contents());
        ok := MigrateBinding(src, ids[k], ids[k] in keyFaults, ids[k] in serviceFaults);
        k := k + 1;
        done := if ok then k else k - 1;
      }
      if keyFaults == {} && serviceFaults == {} {
        FaultlessPhase(src, old(Contents()), ids, done, Contents());
      }
    }

    // ---- the pipeline ----

    /** All four phases, as at every boot. */
    method MigrateToUnifiedCollections(src: Sources, scan: seq<Row>, order: Order) returns (ok: bool)
      requires IsScan(Contents(), scan) && Supplied(Contents())
      requires Lists(src, order) && ListsAll(src, order) && Increasing(order.tokens) && Increasing(order.connections)
      modifies this
      ensures Outcome(Contents(), ok) == Migrate(src, old(Contents()), scan, order)
      ensures old(Sound()) ==> Sound()
    {
      var cleaned := CleanupDuplicates(scan);
      CleanedRowsAreOldRows(old(Contents()), scan);
      ghost var t1 := Contents();
      var tokens := MigrateProviderTokens(src, order.tokens);
      TokenPhaseSettles(src, t1, order.tokens);
      ghost var t2 := Contents();
      var connections := MigrateServiceConnections(src, order.connections);
      ConnectionPhaseSettles(src, t2, order.connections);
      ghost var done;
      ok, done := MigrateNodeServiceBindings(src, order.bindings, {}, {});
    }

    // ---- the orphan collector ----

    method CollectOrphans() returns (orphanEndpoints: set<Id>, orphanKeys: set<Id>)
      ensures orphanEndpoints == endpoints.Keys - ReferencedEndpoints(Contents())
      ensures orphanKeys == keys.Keys - ReferencedKeys(Contents())
      ensures forall e :: e in orphanEndpoints <==>
                e in endpoints && forall i :: i in services && services[i].active ==> services[i].endpoint != e
      ensures forall k :: k in orphanKeys <==>
                k in keys && forall i :: i in services && services[i].active ==> services[i].key != Some(k)
    {
      var activeEndpoints: set<Id>, activeKeys: set<Id> := {}, {};
      var rest := services.Keys;
      while rest != {}
        invariant rest <= services.Keys
        invariant activeEndpoints == set i | i in services.Keys - rest && services[i].active :: services[i].endpoint
        invariant activeKeys ==
          set i | i in services.Keys - rest && services[i].active && services[i].key.Some? :: services[i].key.value
      {
        var i :| i in rest;
        rest := rest - {i};
        if services[i].active {
          activeEndpoints := activeEndpoints + {services[i].endpoint};
          if services[i].key.Some? {
            activeKeys := activeKeys + {services[i].key.value};
          }
        }
      }
      assert services.Keys - rest == services.Keys;
      orphanEndpoints := set i | i in endpoints && i !in activeEndpoints;
      orphanKeys := set i | i in keys && i !in activeKeys;
    }

    /** The `run` command: preview, confirmation, deletion. */
    method DeleteOrphans(dryRun: bool, confirmed: bool)
      modifies this
      ensures Contents() == if dryRun || !confirmed then old(Contents()) else WithoutOrphans(old(Contents()))
      ensures old(Sound()) ==> Sound()
    {
      var orphanEndpoints, orphanKeys := CollectOrphans();
      if dryRun || !confirmed {
        return;
      }
      OrphanStepsKeepSound(Contents());
      ghost var t := Contents();
      endpoints := endpoints - orphanEndpoints;
      assert Contents() == WithoutOrphanEndpoints(t);
      intactSoFar := intactSoFar && Intact(Contents());
      keys := keys - orphanKeys;
      assert Contents() == WithoutOrphans(t);
      intactSoFar := intactSoFar && Intact(Contents());
    }
  }

  lemma DroppedRowCounts(rows: map<Id, Service>, i: Id)
    requires i in rows
    ensures |rows - {i}| == |rows| - 1
  {
    assert rows.Keys == (rows - {i}).Keys + {i};
  }

  lemma {:induction false} TokensInTwoParts(src: Sources, t: Tables, a: seq<Id>, b: seq<Id>)
    requires forall i :: i in a ==> i in src.tokens
    requires forall i :: i in b ==> i in src.tokens
    ensures CopyTokens(src, t, a + b) == CopyTokens(src, CopyTokens(src, t, a), b)
    decreases a
  {
    if a == [] {
      assert a + b == b;
    } else {
      assert (a + b)[1..] == a[1..] + b;
      TokensInTwoParts(src, CopyToken(src, t, a[0]), a[1..], b);
    }
  }

  lemma {:induction false} ConnectionsInTwoParts(src: Sources, t: Tables, a: seq<Id>, b: seq<Id>)
    requires forall i :: i in a ==> i in src.connections
    requires forall i :: i in b ==> i in src.connections
    ensures CopyConnections(src, t, a + b) == CopyConnections(src, CopyConnections(src, t, a), b)
    decreases a
  {
    if a == [] {
      assert a + b == b;
    } else {
      assert (a + b)[1..] == a[1..] + b;
      ConnectionsInTwoParts(src, CopyConnection(src, t, a[0]), a[1..], b);
    }
  }

  lemma AttachKeepsSound(t: Tables, b: Binding)
    ensures SoundTables(t) ==> SoundTables(Attach(t, b))
  {
    if SoundTables(t) {
      var u := Attach(t, b);
      forall i, j | i in u.services && j in u.services && i != j && IsMigrated(u.services[i])
        ensures u.services[i].endpoint != u.services[j].endpoint
        ensures u.services[i].key.Some? ==> u.services[i].key != u.services[j].key
      {
        assert SameButNode(t.services[i], u.services[i]) && SameButNode(t.services[j], u.services[j]);
      }
    }
  }

  /** A binding that needs a triple, and key or service of it cannot be inserted. */
  predicate CopyFails(src: Sources, t: Tables, id: Id, fault: bool)
    requires id in src.bindings
  {
    && Siblings(t, src.bindings[id].user, src.bindings[id].service) == {} && DraftBinding(src, t, id).Some?
    && (fault || ServiceFrom(t, BINDING_SOURCE, id))
  }

  lemma BindingDraftIsFree(src: Sources, t: Tables, id: Id)
    requires id in src.bindings && DraftBinding(src, t, id).Some?
    ensures var d := DraftBinding(src, t, id).value;
            d.slug !in ActiveSlugs(t, d.user) && !KeyFrom(t, d.source, d.sourceId) && d.source == BINDING_SOURCE
  {
    ResolvedSlugIsFree(t, src.bindings[id].user, src.catalog[src.bindings[id].service].slug);
  }

  lemma {:induction false} StoppedPhaseStaysStopped(src: Sources, t: Tables, ids: seq<Id>, k: nat)
    requires k <= |ids| && forall i :: i in ids ==> i in src.bindings
    requires !CopyBindings(src, t, ids[..k]).ok
    ensures CopyBindings(src, t, ids) == CopyBindings(src, t, ids[..k])
    decreases |ids| - k
  {
    if k < |ids| {
      assert ids[..k + 1][..k] == ids[..k];
      StoppedPhaseStaysStopped(src, t, ids, k + 1);
    } else {
      assert ids[..k] == ids;
    }
  }

  // ---- orphans ----

  lemma OneMoreBinding(src: Sources, t: Tables, ids: seq<Id>, k: nat, u: Tables)
    requires k < |ids| && (forall i :: i in ids ==> i in src.bindings)
    requires CopyBindings(src, t, ids[..k]) == Outcome(u, true)
    ensures CopyBindings(src, t, ids[..k + 1]) == CopyBinding(src, u, ids[k])
  {
    assert ids[..k + 1][..k] == ids[..k];
  }

  /** Without faults the phase ends where the specified one does. */
  lemma FaultlessPhase(src: Sources, t: Tables, ids: seq<Id>, done: nat, u: Tables)
    requires done <= |ids| && (forall i :: i in ids ==> i in src.bindings)
    requires CopyBindings(src, t, ids[..done]) == Outcome(u, true)
    requires done < |ids| ==> CopyFails(src, u, ids[done], false)
    ensures CopyBindings(src, t, ids) == Outcome(u, done == |ids|)
  {
    if done == |ids| {
      assert ids[..done] == ids;
    } else {
      OneMoreBinding(src, t, ids, done, u);
      StoppedPhaseStaysStopped(src, t, ids, done + 1);
    }
  }

  function ReferencedEndpoints(t: Tables): set<Id> {
    set i | i in t.services && t.services[i].active :: t.services[i].endpoint
  }

  function ReferencedKeys(t: Tables): set<Id> {
    set i | i in t.services && t.services[i].active && t.services[i].key.Some? :: t.services[i].key.value
  }

  function WithoutOrphanEndpoints(t: Tables): Tables {
    t.(endpoints := t.endpoints - (t.endpoints.Keys - ReferencedEndpoints(t)))
  }

  function WithoutOrphans(t: Tables): Tables {
    WithoutOrphanEndpoints(t).(keys := t.keys - (t.keys.Keys - ReferencedKeys(t)))
  }

  lemma OrphanStepsKeepSound(t: Tables)
    ensures SoundTables(t) ==> SoundTables(WithoutOrphanEndpoints(t)) && SoundTables(WithoutOrphans(t))
  {
  }

  /** The row stays: an active service refers to it. */
  ghost predicate EndpointInUse(t: Tables, e: Id) {
    exists i :: i in t.services && t.services[i].active && t.services[i].endpoint == e
  }

  ghost predicate KeyInUse(t: Tables, k: Id) {
    exists i :: i in t.services && t.services[i].active && t.services[i].key == Some(k)
  }

  /** Once the references resolve, deleting the orphans leaves exactly the rows the
      active services refer to, unchanged, and a second collection finds nothing. */
  lemma OnlyReferencedRowsRemain(t: Tables)
    requires Resolves(t)
    ensures forall e :: e in WithoutOrphans(t).endpoints <==> EndpointInUse(t, e)
    ensures forall k :: k in WithoutOrphans(t).keys <==> KeyInUse(t, k)
    ensures forall e :: EndpointInUse(t, e) ==> e in t.endpoints && WithoutOrphans(t).endpoints[e] == t.endpoints[e]
    ensures forall k :: KeyInUse(t, k) ==> k in t.keys && WithoutOrphans(t).keys[k] == t.keys[k]
    ensures WithoutOrphans(t).endpoints.Keys == ReferencedEndpoints(t)
    ensures WithoutOrphans(t).keys.Keys == ReferencedKeys(t)
    ensures WithoutOrphans(WithoutOrphans(t)) == WithoutOrphans(t)
    ensures Resolves(WithoutOrphans(t)) && WithoutOrphans(t).services == t.services
  {
    var u := WithoutOrphans(t);
    forall i | i in ReferencedEndpoints(t)
      ensures i in t.endpoints
    {
      var j :| j in t.services && t.services[j].active && t.services[j].endpoint == i;
    }
    forall i | i in ReferencedKeys(t)
      ensures i in t.keys
    {
      var j :| j in t.services && t.services[j].active && t.services[j].key == Some(i);
    }
    assert WithoutOrphans(u).endpoints == u.endpoints;
    assert WithoutOrphans(u).keys == u.keys;
  }
}
