/** What a run of the whole start-up migration leaves, said in the fields of the source rows
    and of the tables (backend/src/db.rs, `migrate_to_unified_collections`). */
module MigrationEffect {
  import opened Options
  import opened UserTables
  import opened Cleanup
  import opened Copies
  import opened Bindings
  import opened Pipeline
  import opened CleanupEffect
  import opened CopyEffects

  /** No row is a duplicate, and no token and no active connection can still be copied. */
  ghost predicate RowsAreDone(src: Sources, u: Tables) {
    && (forall i :: !IsDuplicate(u, i))
    && (forall i, target, slug :: i in src.tokens ==> !TokenGoesTo(src, u, i, target, slug))
    && (forall i, slug :: i in src.connections && src.connections[i].active ==> !ConnectionGoesTo(src, u, i, slug))
  }

  /** Nor can any active binding. */
  ghost predicate BindingsAreDone(src: Sources, u: Tables) {
    forall i, slug :: i in src.bindings && src.bindings[i].active ==> !BindingNeeds(src, u, i, slug)
  }

  /** Where several bindings name one pair of user and service, the last of them in the listing
      tells the oldest service of the pair its node and priority. */
  ghost predicate LastBindingsRule(src: Sources, u: Tables, ids: seq<Id>)
    requires forall i :: i in ids ==> i in src.bindings
  {
    forall k, i :: 0 <= k < |ids| && IsLastOfPair(src, ids, k) && IsOldest(src, u, ids[k], i) ==>
      u.services[i].node == Some(src.bindings[ids[k]].node) && u.services[i].priority == src.bindings[ids[k]].priority
  }

  ghost predicate IsLastOfPair(src: Sources, ids: seq<Id>, k: nat)
    requires k < |ids| && forall i :: i in ids ==> i in src.bindings
  {
    forall l :: k < l < |ids| ==>
      src.bindings[ids[l]].user != src.bindings[ids[k]].user || src.bindings[ids[l]].service != src.bindings[ids[k]].service
  }

  ghost predicate IsOldest(src: Sources, u: Tables, id: Id, i: Id)
    requires id in src.bindings
  {
    var b := src.bindings[id];
    Serving(u, i, b.user, b.service) && forall j :: Serving(u, j, b.user, b.service) ==> i <= j
  }

  lemma {:induction false} LastForIsLast(src: Sources, ids: seq<Id>, k: nat)
    requires k < |ids| && (forall i :: i in ids ==> i in src.bindings) && IsLastOfPair(src, ids, k)
    ensures var b := src.bindings[ids[k]]; LastFor(src, ids, b.user, b.service) == Some(b)
    decreases ids
  {
    if k < |ids| - 1 {
      LastForIsLast(src, ids[..|ids| - 1], k);
    }
  }

  lemma QuietHasNoDuplicates(u: Tables)
    requires Quiet(u)
    ensures forall i :: !IsDuplicate(u, i)
  {
    forall i | i in u.services
      ensures !IsDuplicate(u, i)
    {
      DuplicateIsRemovable(u, i);
    }
  }

  /** For any sources, tables and orders: whether or not a binding cuts the run short, it
      leaves no duplicate and nothing to copy for any token or active connection. */
  lemma MigrationLeavesNoRows(src: Sources, t: Tables, scan: seq<Row>, o: Order)
    requires Supplied(t) && IsQueryResult(t, scan) && Lists(src, o) && ListsAll(src, o)
    ensures RowsAreDone(src, Migrate(src, t, scan, o).tables)
  {
    var u := Migrate(src, t, scan, o).tables;
    QueryIsScan(t, scan);
    MigrationSettles(src, t, scan, o);
    QuietHasNoDuplicates(u);
    forall i, target, slug | i in src.tokens
      ensures !TokenGoesTo(src, u, i, target, slug)
    {
      TokenCopiedExactly(src, u, i);
    }
    forall i, slug | i in src.connections && src.connections[i].active
      ensures !ConnectionGoesTo(src, u, i, slug)
    {
      ConnectionCopiedExactly(src, u, i);
    }
  }

  lemma SettledBindingNeedsNothing(src: Sources, u: Tables, id: Id, slug: string)
    requires id in src.bindings && CopyBinding(src, u, id) == Outcome(Attach(u, src.bindings[id]), true)
    ensures !BindingNeeds(src, u, id, slug)
  {
    AttachKeepsSiblings(u, src.bindings[id]);
    BindingCopiedExactly(src, u, id);
  }

  lemma SettledListRules(src: Sources, u: Tables, ids: seq<Id>)
    requires (forall i :: i in ids ==> i in src.bindings) && AttachAll(src, u, ids) == u
    ensures LastBindingsRule(src, u, ids)
  {
    AttachesNothingExactly(src, u, ids);
    forall k, i | 0 <= k < |ids| && IsLastOfPair(src, ids, k) && IsOldest(src, u, ids[k], i)
      ensures u.services[i].node == Some(src.bindings[ids[k]].node)
      ensures u.services[i].priority == src.bindings[ids[k]].priority
    {
      var b := src.bindings[ids[k]];
      LastForIsLast(src, ids, k);
      ServedExactly(u, b.user, b.service);
      assert LastFits(src, u, ids, b.user, b.service);
    }
  }

  /** A run that is not cut short leaves nothing to copy for any active binding either, and
      the last binding of every pair rules. */
  lemma MigrationLeavesNoBindings(src: Sources, t: Tables, scan: seq<Row>, o: Order)
    requires Supplied(t) && IsQueryResult(t, scan) && Lists(src, o) && ListsAll(src, o)
    requires Migrate(src, t, scan, o).ok
    ensures BindingsAreDone(src, Migrate(src, t, scan, o).tables)
    ensures LastBindingsRule(src, Migrate(src, t, scan, o).tables, o.bindings)
  {
    var u := Migrate(src, t, scan, o).tables;
    QueryIsScan(t, scan);
    MigrationSettles(src, t, scan, o);
    BindingPhaseRepeats(src, UpToBindings(src, t, scan, o), o.bindings);
    SettledListRules(src, u, o.bindings);
    forall i, slug | i in src.bindings && src.bindings[i].active
      ensures !BindingNeeds(src, u, i, slug)
    {
      assert CopyBinding(src, u, i) == Outcome(Attach(u, src.bindings[i]), true);
      SettledBindingNeedsNothing(src, u, i, slug);
    }
  }
}
