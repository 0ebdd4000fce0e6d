/** The whole start-up migration (backend/src/db.rs,
    `migrate_to_unified_collections`): it runs at every boot, and a second run
    changes nothing. */
module Pipeline {
  import opened UserTables
  import opened Cleanup
  import opened Copies
  import opened Bindings

  /** The order in which the database hands out the source rows: of connections and bindings
      the active ones. */
  datatype Order = Order(tokens: seq<Id>, connections: seq<Id>, bindings: seq<Id>)

  predicate Lists(src: Sources, o: Order) {
    && (forall i :: i in o.tokens ==> i in src.tokens)
    && (forall i :: i in o.connections ==> i in src.connections && src.connections[i].active)
    && (forall i :: i in o.bindings ==> i in src.bindings && src.bindings[i].active)
  }

  /** Every row of the source collections is listed that a phase asks for. */
  ghost predicate ListsAll(src: Sources, o: Order) {
    && (forall i :: i in src.tokens ==> i in o.tokens)
    && (forall i :: i in src.connections && src.connections[i].active ==> i in o.connections)
    && (forall i :: i in src.bindings && src.bindings[i].active ==> i in o.bindings)
  }

  function Migrate(src: Sources, t: Tables, scan: seq<Row>, o: Order): Outcome
    requires Lists(src, o)
  {
    CopyBindings(src, UpToBindings(src, t, scan, o), o.bindings)
  }

  /** The tables after the first three phases. */
  function UpToBindings(src: Sources, t: Tables, scan: seq<Row>, o: Order): Tables
    requires Lists(src, o)
  {
    CopyConnections(src, CopyTokens(src, Clean(t, scan), o.tokens), o.connections)
  }

  // ---- no phase makes work for the cleanup pass ----

  /** The new service of a (user, catalog) pair without active service is neither a
      duplicate nor the base of one. */
  lemma FirstSiblingKeepsQuiet(t: Tables, d: Draft)
    requires Supplied(t) && Quiet(t)
    requires d.catalog.Some? ==> Siblings(t, d.user, d.catalog.value) == {}
    ensures Quiet(Insert(t, d))
  {
    var u := Insert(t, d);
    assert forall k :: k in t.services && d.catalog.Some? && Serves(t.services[k], d.user, d.catalog.value) ==>
        k in Siblings(t, d.user, d.catalog.value);
    forall i, j | i in u.services && Selected(u.services[i]) && j in u.services
      ensures Slugs.SuffixBase(u.services[i].slug).Some? ==>
                !IsBaseOf(u.services[j], u.services[i], Slugs.SuffixBase(u.services[i].slug).value)
    {
      if i != t.next + 2 && j != t.next + 2 {
        assert !Removable(t, t.services[i]);
      }
    }
  }

  lemma AttachKeepsQuiet(t: Tables, b: Binding)
    requires Quiet(t)
    ensures Quiet(Attach(t, b))
  {
    var u := Attach(t, b);
    forall i | i in u.services && Selected(u.services[i])
      ensures !Removable(u, u.services[i])
    {
      assert Selected(t.services[i]) && !Removable(t, t.services[i]);
      forall j, slug | j in u.services && IsBaseOf(u.services[j], u.services[i], slug)
        ensures IsBaseOf(t.services[j], t.services[i], slug)
      {
      }
    }
  }

  lemma {:induction false} TokenPhaseKeepsQuiet(src: Sources, t: Tables, ids: seq<Id>)
    requires Supplied(t) && Quiet(t) && forall i :: i in ids ==> i in src.tokens
    ensures Quiet(CopyTokens(src, t, ids))
    decreases ids
  {
    if ids != [] {
      var u := CopyToken(src, t, ids[0]);
      TokenCopyGrows(src, t, ids[0]);
      if u != t {
        FirstSiblingKeepsQuiet(t, DraftToken(src, t, ids[0]).value);
      }
      TokenPhaseKeepsQuiet(src, u, ids[1..]);
    }
  }

  lemma {:induction false} ConnectionPhaseKeepsQuiet(src: Sources, t: Tables, ids: seq<Id>)
    requires Supplied(t) && Quiet(t) && forall i :: i in ids ==> i in src.connections
    ensures Quiet(CopyConnections(src, t, ids))
    decreases ids
  {
    if ids != [] {
      var u := CopyConnection(src, t, ids[0]);
      ConnectionCopyGrows(src, t, ids[0]);
      if u != t {
        FirstSiblingKeepsQuiet(t, DraftConnection(src, t, ids[0]).value);
      }
      ConnectionPhaseKeepsQuiet(src, u, ids[1..]);
    }
  }

  lemma {:induction false} BindingPhaseKeepsQuiet(src: Sources, t: Tables, ids: seq<Id>)
    requires Supplied(t) && Quiet(t) && forall i :: i in ids ==> i in src.bindings
    ensures Quiet(CopyBindings(src, t, ids).tables)
    decreases ids
  {
    if ids != [] {
      var front, id := ids[..|ids| - 1], ids[|ids| - 1];
      BindingPhaseKeepsQuiet(src, t, front);
      BindingPhaseRepeats(src, t, front);
      var u := CopyBindings(src, t, front).tables;
      var b := src.bindings[id];
      if Siblings(u, b.user, b.service) != {} {
        AttachKeepsQuiet(u, b);
      } else if DraftBinding(src, u, id).Some? {
        FirstSiblingKeepsQuiet(u, DraftBinding(src, u, id).value);
      }
    }
  }

  // ---- the second run ----

  /** Behind the migration no row is a duplicate, and no token or connection has anything left
      to copy. */
  lemma MigrationSettles(src: Sources, t: Tables, scan: seq<Row>, o: Order)
    requires Supplied(t) && IsScan(t, scan) && Lists(src, o)
    ensures var u := Migrate(src, t, scan, o).tables;
      && Supplied(UpToBindings(src, t, scan, o)) && Quiet(u)
      && (forall i :: i in o.tokens ==> CopyToken(src, u, i) == u)
      && (forall i :: i in o.connections ==> CopyConnection(src, u, i) == u)
  {
    var t1 := Clean(t, scan);
    CleanedRowsAreOldRows(t, scan);
    CleanupReachesQuiet(t, scan);
    var t2 := CopyTokens(src, t1, o.tokens);
    TokenPhaseSettles(src, t1, o.tokens);
    TokenPhaseKeepsQuiet(src, t1, o.tokens);
    var t3 := CopyConnections(src, t2, o.connections);
    ConnectionPhaseSettles(src, t2, o.connections);
    ConnectionPhaseKeepsQuiet(src, t2, o.connections);
    BindingPhaseRepeats(src, t3, o.bindings);
    BindingPhaseKeepsQuiet(src, t3, o.bindings);
    GrowsTransitive(t2, t3, CopyBindings(src, t3, o.bindings).tables);
  }

  /** Up to the bindings a second run does nothing. */
  lemma SecondRunStartsIdle(src: Sources, t: Tables, scan: seq<Row>, o: Order, scan2: seq<Row>, o2: Order)
    requires Supplied(t) && IsScan(t, scan) && Lists(src, o) && Lists(src, o2)
    requires IsScan(Migrate(src, t, scan, o).tables, scan2)
    requires forall i :: i in o2.tokens ==> i in o.tokens
    requires forall i :: i in o2.connections ==> i in o.connections
    ensures Supplied(UpToBindings(src, t, scan, o))
    ensures var u := Migrate(src, t, scan, o).tables; Clean(u, scan2) == u && UpToBindings(src, u, scan2, o2) == u
  {
    var u := Migrate(src, t, scan, o).tables;
    MigrationSettles(src, t, scan, o);
    QuietMeansNoDeletion(u, scan2);
    SettledPhasesAreIdle(src, u, o2.tokens, o2.connections);
  }

  /** From any state, running all four phases on the result of running them changes
      nothing: the second cleanup deletes nothing, the second copies insert nothing,
      the bindings end up attached as before, and a run that was cut short by a
      binding is cut short by the same one. Only the bindings have to come in the
      same order; cleanup, tokens and connections may be read in any order. */
  lemma SecondMigrationChangesNothing(src: Sources, t: Tables, scan: seq<Row>, o: Order, scan2: seq<Row>, o2: Order)
    requires Supplied(t) && IsScan(t, scan) && Lists(src, o) && Lists(src, o2)
    requires IsScan(Migrate(src, t, scan, o).tables, scan2)
    requires forall i :: i in o2.tokens ==> i in o.tokens
    requires forall i :: i in o2.connections ==> i in o.connections
    requires o2.bindings == o.bindings
    ensures Clean(Migrate(src, t, scan, o).tables, scan2) == Migrate(src, t, scan, o).tables
    ensures Migrate(src, Migrate(src, t, scan, o).tables, scan2, o2) == Migrate(src, t, scan, o)
  {
    SecondRunStartsIdle(src, t, scan, o, scan2, o2);
    BindingPhaseRepeats(src, UpToBindings(src, t, scan, o), o.bindings);
  }

  /** For any first run, cut short or not, and any list of bindings in the second: it changes
      nothing if and only if the list is idle on the result, and has a binding that ends the
      phase exactly when the first run was cut short. */
  lemma AnyBindingsChangeNothingExactly(
      src: Sources, t: Tables, scan: seq<Row>, o: Order, scan2: seq<Row>, o2: Order)
    requires Supplied(t) && IsScan(t, scan) && Lists(src, o) && Lists(src, o2)
    requires IsScan(Migrate(src, t, scan, o).tables, scan2)
    requires forall i :: i in o2.tokens ==> i in o.tokens
    requires forall i :: i in o2.connections ==> i in o.connections
    ensures var r := Migrate(src, t, scan, o);
      Migrate(src, r.tables, scan2, o2) == r <==>
      IsIdle(src, r.tables, o2.bindings) && (r.ok <==> PlainLength(src, r.tables, o2.bindings) == |o2.bindings|)
  {
    SecondRunStartsIdle(src, t, scan, o, scan2, o2);
    IdleExactly(src, Migrate(src, t, scan, o).tables, o2.bindings);
  }

  /** After a run that was not cut short, and with the same bindings in any order: for every
      user and service with an active service row, the last binding of the pair names the
      same node and priority in both orders. */
  lemma AnotherOrderChangesNothingExactly(
      src: Sources, t: Tables, scan: seq<Row>, o: Order, scan2: seq<Row>, o2: Order)
    requires Supplied(t) && IsScan(t, scan) && Lists(src, o) && Lists(src, o2)
    requires Migrate(src, t, scan, o).ok && IsScan(Migrate(src, t, scan, o).tables, scan2)
    requires forall i :: i in o2.tokens ==> i in o.tokens
    requires forall i :: i in o2.connections ==> i in o.connections
    requires forall i :: i in o2.bindings ==> i in o.bindings
    ensures var r := Migrate(src, t, scan, o);
      Migrate(src, r.tables, scan2, o2) == r <==>
      forall user: Id, service: Id :: Siblings(r.tables, user, service) != {} ==>
        SameLast(src, o.bindings, o2.bindings, user, service)
  {
    var r := Migrate(src, t, scan, o);
    SecondRunStartsIdle(src, t, scan, o, scan2, o2);
    BindingPhaseRepeats(src, UpToBindings(src, t, scan, o), o.bindings);
    SettledBindingsAttach(src, r.tables, o2.bindings);
    AnotherListIsIdleExactly(src, r.tables, o.bindings, o2.bindings);
  }
}
