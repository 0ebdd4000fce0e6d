/** What the cleanup pass leaves, said in the fields of the rows alone: which services are
    gone, which endpoints and keys went with them, and that no duplicate is left
    (backend/src/db.rs, `cleanup_duplicate_migration_services`). */
module CleanupEffect {
  import opened Options
  import opened UserTables
  import opened Cleanup
  import Slugs

  /** An active service that some migration made for a catalog entry. */
  predicate MadeByMigration(s: Service) {
    && s.active && s.catalog != None
    && s.source != None && |s.source.value| >= 10 && s.source.value[..10] == "migration_"
  }

  /** The answer of the query: every such row once, and nothing else, in any order. */
  ghost predicate IsQueryResult(t: Tables, rows: seq<Row>) {
    && (forall k :: 0 <= k < |rows| ==>
          rows[k].0 in t.services && t.services[rows[k].0] == rows[k].1 && MadeByMigration(rows[k].1))
    && (forall k, l :: 0 <= k < l < |rows| ==> rows[k].0 != rows[l].0)
    && (forall i :: i in t.services && MadeByMigration(t.services[i]) ==> exists k :: 0 <= k < |rows| && rows[k].0 == i)
  }

  lemma QueryIsScan(t: Tables, rows: seq<Row>)
    ensures IsQueryResult(t, rows) <==> IsScan(t, rows)
  {
    forall s: Service
      ensures MadeByMigration(s) <==> Selected(s)
    {
      PrefixIs(s);
    }
    if IsScan(t, rows) {
      forall i | i in t.services && MadeByMigration(t.services[i])
        ensures exists k :: 0 <= k < |rows| && rows[k].0 == i
      {
        var k :| 0 <= k < |rows| && rows[k] == (i, t.services[i]);
        assert rows[k].0 == i;
      }
    }
  }

  lemma PrefixIs(s: Service)
    ensures MadeByMigration(s) <==> Selected(s)
  {
    if s.source.Some? {
      var v := s.source.value;
      assert |"migration_"| == 10;
      assert "migration_" <= v <==> |v| >= 10 && v[..10] == "migration_";
    }
  }

  /** Same user and catalog entry, active, under the slug of `s` without its suffix. */
  ghost predicate StandsBehind(s: Service, base: Service) {
    base.active && base.user == s.user && base.catalog == s.catalog && Slugs.IsSuffixed(s.slug, base.slug)
  }

  /** The duplicates among the rows: made by a migration, next to their base. */
  ghost predicate IsDuplicate(t: Tables, i: Id) {
    && i in t.services && MadeByMigration(t.services[i])
    && exists j :: j in t.services && StandsBehind(t.services[i], t.services[j])
  }

  lemma DuplicateIsRemovable(t: Tables, i: Id)
    requires i in t.services
    ensures IsDuplicate(t, i) <==> Selected(t.services[i]) && Removable(t, t.services[i])
  {
    var s := t.services[i];
    PrefixIs(s);
    forall base
      ensures Slugs.IsSuffixed(s.slug, base) <==> Slugs.SuffixBase(s.slug) == Some(base)
    {
      Slugs.SuffixBaseExactly(s.slug, base);
    }
    if IsDuplicate(t, i) {
      var j :| j in t.services && StandsBehind(s, t.services[j]);
      assert IsBaseOf(t.services[j], s, t.services[j].slug);
    }
    if Selected(s) && Removable(t, s) {
      var j :| j in t.services && IsBaseOf(t.services[j], s, Slugs.SuffixBase(s.slug).value);
      assert StandsBehind(s, t.services[j]);
    }
  }

  // ---- the rows that go ----

  function Deleted(t: Tables, u: Tables): set<Id> {
    t.services.Keys - u.services.Keys
  }

  function EndpointsOf(t: Tables, ids: set<Id>): set<Id> {
    set i | i in ids && i in t.services :: t.services[i].endpoint
  }

  function KeysOf(t: Tables, ids: set<Id>): set<Id> {
    set i | i in ids && i in t.services && t.services[i].key != None :: t.services[i].key.value
  }

  /** Endpoints and keys go with the services that own them, and no others. */
  ghost predicate OwnedRowsGo(t: Tables, u: Tables) {
    && u.services == t.services - Deleted(t, u)
    && u.endpoints == t.endpoints - EndpointsOf(t, Deleted(t, u))
    && u.keys == t.keys - KeysOf(t, Deleted(t, u))
  }

  lemma StepOwnedRowsGo(t: Tables, row: Row)
    requires row.0 in t.services && t.services[row.0] == row.1
    ensures OwnedRowsGo(t, CleanOne(t, row))
  {
    var u := CleanOne(t, row);
    assert Deleted(t, u) == {} || Deleted(t, u) == {row.0};
  }

  lemma OwnedRowsGoOn(t: Tables, u: Tables, v: Tables)
    requires OwnedRowsGo(t, u) && OwnedRowsGo(u, v)
    ensures OwnedRowsGo(t, v)
  {
    assert Deleted(t, v) == Deleted(t, u) + Deleted(u, v);
    assert EndpointsOf(t, Deleted(t, v)) == EndpointsOf(t, Deleted(t, u)) + EndpointsOf(u, Deleted(u, v));
    assert KeysOf(t, Deleted(t, v)) == KeysOf(t, Deleted(t, u)) + KeysOf(u, Deleted(u, v));
  }

  lemma {:induction false} PassOwnedRowsGo(t: Tables, rows: seq<Row>)
    requires RowsOf(t, rows)
    ensures OwnedRowsGo(t, Clean(t, rows))
    decreases rows
  {
    if rows != [] {
      StepKeepsRest(t, rows);
      StepOwnedRowsGo(t, rows[0]);
      PassOwnedRowsGo(CleanOne(t, rows[0]), rows[1..]);
      OwnedRowsGoOn(t, CleanOne(t, rows[0]), Clean(t, rows));
    } else {
      assert Deleted(t, t) == {};
    }
  }

  /** A row goes only as a duplicate, and then its base was there from the start. */
  lemma {:induction false} DeletedWereDuplicates(t: Tables, rows: seq<Row>, i: Id)
    requires RowsOf(t, rows) && i in t.services && i !in Clean(t, rows).services
    ensures Selected(t.services[i]) && Removable(t, t.services[i])
    decreases rows
  {
    var u := CleanOne(t, rows[0]);
    if i in u.services {
      StepKeepsRest(t, rows);
      DeletedWereDuplicates(u, rows[1..], i);
      var j :| j in u.services && IsBaseOf(u.services[j], u.services[i], Slugs.SuffixBase(u.services[i].slug).value);
      assert IsBaseOf(t.services[j], t.services[i], Slugs.SuffixBase(t.services[i].slug).value);
    }
  }

  /** What the pass does to any tables, for any order of the query's answer: it deletes only
      duplicates, with exactly the endpoints and keys they own; no duplicate is left; and
      where there is none, nothing changes. */
  lemma CleanupDeletesDuplicates(t: Tables, rows: seq<Row>)
    requires IsQueryResult(t, rows)
    ensures OwnedRowsGo(t, Clean(t, rows)) && Clean(t, rows).next == t.next
    ensures forall i :: i in t.services && i !in Clean(t, rows).services ==> IsDuplicate(t, i)
    ensures forall i :: !IsDuplicate(Clean(t, rows), i)
    ensures (forall i :: !IsDuplicate(t, i)) ==> Clean(t, rows) == t
  {
    QueryIsScan(t, rows);
    var u := Clean(t, rows);
    PassOwnedRowsGo(t, rows);
    CleanedRowsAreOldRows(t, rows);
    CleanupReachesQuiet(t, rows);
    forall i | i in t.services && i !in u.services
      ensures IsDuplicate(t, i)
    {
      DeletedWereDuplicates(t, rows, i);
      DuplicateIsRemovable(t, i);
    }
    forall i | i in u.services
      ensures !IsDuplicate(u, i)
    {
      DuplicateIsRemovable(u, i);
    }
    if forall i :: !IsDuplicate(t, i) {
      forall i | i in t.services
        ensures !(Selected(t.services[i]) && Removable(t, t.services[i]))
      {
        DuplicateIsRemovable(t, i);
      }
      QuietMeansNoDeletion(t, rows);
    }
  }
}
