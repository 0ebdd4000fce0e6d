/** The first phase of the start-up migration: removal of services whose slug
    carries a collision suffix although the unsuffixed service is there too
    (backend/src/db.rs, `cleanup_duplicate_migration_services`). */
module Cleanup {
  import opened Options
  import opened UserTables
  import Slugs

  /** A row as the scan read it. */
  type Row = (Id, Service)

  predicate Selected(s: Service) {
    s.active && IsMigrated(s) && s.catalog.Some?
  }

  predicate IsBaseOf(b: Service, s: Service, slug: string) {
    b.active && b.user == s.user && b.slug == slug && b.catalog == s.catalog
  }

  predicate BaseExists(t: Tables, s: Service, slug: string) {
    exists i :: i in t.services && IsBaseOf(t.services[i], s, slug)
  }

  predicate Removable(t: Tables, s: Service) {
    && s.catalog.Some?
    && Slugs.SuffixBase(s.slug).Some?
    && BaseExists(t, s, Slugs.SuffixBase(s.slug).value)
  }

  function Remove(t: Tables, i: Id, s: Service): Tables {
    t.(services := t.services - {i},
       endpoints := t.endpoints - {s.endpoint},
       keys := if s.key.Some? then t.keys - {s.key.value} else t.keys)
  }

  function CleanOne(t: Tables, row: Row): Tables {
    if Removable(t, row.1) then Remove(t, row.0, row.1) else t
  }

  function Clean(t: Tables, rows: seq<Row>): Tables
    decreases rows
  {
    if rows == [] then t else Clean(CleanOne(t, rows[0]), rows[1..])
  }

  /** Selected rows of the table, each at most once. */
  ghost predicate RowsOf(t: Tables, rows: seq<Row>) {
    && (forall k :: 0 <= k < |rows| ==>
          rows[k].0 in t.services && t.services[rows[k].0] == rows[k].1 && Selected(rows[k].1))
    && (forall k, l :: 0 <= k < l < |rows| ==> rows[k].0 != rows[l].0)
  }

  /** What the query returns, in whatever order the database returns it. */
  ghost predicate IsScan(t: Tables, rows: seq<Row>) {
    && RowsOf(t, rows)
    && forall i :: i in t.services && Selected(t.services[i]) ==> (i, t.services[i]) in rows
  }

  lemma StepKeepsRest(t: Tables, rows: seq<Row>)
    requires RowsOf(t, rows) && rows != []
    ensures RowsOf(CleanOne(t, rows[0]), rows[1..])
  {
  }

  /** An active service of the same user and catalog entry, named by the slug of
      `s` with one or more numeric suffixes taken off. */
  ghost predicate HasSurvivor(t: Tables, s: Service) {
    exists i :: i in t.services && IsSurvivorOf(t.services[i], s)
  }

  predicate IsSurvivorOf(survivor: Service, s: Service) {
    survivor.active && survivor.user == s.user && survivor.catalog == s.catalog && Slugs.Strips(s.slug, survivor.slug)
  }

  /** A deleted service came from a migration and leaves a survivor behind. Bases that the pass deletes later
      do not matter, and neither does the order of the scan. */
  lemma {:induction false} CleanupKeepsSurvivor(t: Tables, rows: seq<Row>, d: Id)
    requires RowsOf(t, rows)
    requires d in t.services && d !in Clean(t, rows).services
    ensures IsMigrated(t.services[d])
    ensures HasSurvivor(Clean(t, rows), t.services[d])
    decreases rows
  {
    var u := CleanOne(t, rows[0]);
    var final := Clean(u, rows[1..]);
    StepKeepsRest(t, rows);
    if d in u.services {
      CleanupKeepsSurvivor(u, rows[1..], d);
    } else {
      var s := t.services[d];
      var base := Slugs.SuffixBase(s.slug).value;
      var i :| i in t.services && IsBaseOf(t.services[i], s, base);
      assert i in u.services && u.services[i] == t.services[i];
      CleanedRowsAreOldRows(u, rows[1..]);
      if i !in final.services {
        CleanupKeepsSurvivor(u, rows[1..], i);
      }
    }
  }

  /** The pass only deletes: every row that is left is an old row, untouched. */
  lemma {:induction false} CleanedRowsAreOldRows(t: Tables, rows: seq<Row>)
    ensures forall i :: i in Clean(t, rows).services ==> i in t.services && Clean(t, rows).services[i] == t.services[i]
    ensures forall i :: i in Clean(t, rows).endpoints ==> i in t.endpoints && Clean(t, rows).endpoints[i] == t.endpoints[i]
    ensures forall i :: i in Clean(t, rows).keys ==> i in t.keys && Clean(t, rows).keys[i] == t.keys[i]
    ensures Clean(t, rows).next == t.next
    decreases rows
  {
    if rows != [] {
      CleanedRowsAreOldRows(CleanOne(t, rows[0]), rows[1..]);
    }
  }

  /** Nothing is left to delete. */
  ghost predicate Quiet(t: Tables) {
    forall i :: i in t.services && Selected(t.services[i]) ==> !Removable(t, t.services[i])
  }

  lemma {:induction false} ScannedRowsSettle(t: Tables, rows: seq<Row>, row: Row)
    requires RowsOf(t, rows) && row in rows
    requires row.0 in Clean(t, rows).services
    ensures !Removable(Clean(t, rows), row.1)
    decreases rows
  {
    var u := CleanOne(t, rows[0]);
    var final := Clean(u, rows[1..]);
    StepKeepsRest(t, rows);
    CleanedRowsAreOldRows(u, rows[1..]);
    if row == rows[0] {
      assert row.0 in u.services;
      assert !Removable(t, row.1);
    } else {
      ScannedRowsSettle(u, rows[1..], row);
    }
  }

  /** One pass over a full scan leaves nothing for a second one. */
  lemma CleanupReachesQuiet(t: Tables, rows: seq<Row>)
    requires IsScan(t, rows)
    ensures Quiet(Clean(t, rows))
  {
    CleanedRowsAreOldRows(t, rows);
    var u := Clean(t, rows);
    forall i | i in u.services && Selected(u.services[i])
      ensures !Removable(u, u.services[i])
    {
      ScannedRowsSettle(t, rows, (i, t.services[i]));
    }
  }

  lemma {:induction false} QuietMeansNoDeletion(t: Tables, rows: seq<Row>)
    requires Quiet(t) && RowsOf(t, rows)
    ensures Clean(t, rows) == t
    decreases rows
  {
    if rows != [] {
      assert CleanOne(t, rows[0]) == t;
      StepKeepsRest(t, rows);
      QuietMeansNoDeletion(t, rows[1..]);
    }
  }

  /** The pass is order-dependent: of the slugs x, x-2 and x-2-2, the third
      survives when the second goes first, and goes when it is scanned first. */
  lemma OrderMatters()
    ensures exists t, a, b :: IsScan(t, [a, b]) && IsScan(t, [b, a]) && Clean(t, [a, b]) != Clean(t, [b, a])
  {
    var two, twice := Slugs.Candidate("x", 2), Slugs.Candidate(Slugs.Candidate("x", 2), 2);
    Slugs.ParserRecoversBase("x", 2);
    Slugs.ParserRecoversBase(two, 2);
    var t, a, b := OrderMattersFor("x", two, twice, "migration_");
  }

  lemma OrderMattersFor(x: string, two: string, twice: string, source: string) returns (t: Tables, a: Row, b: Row)
    requires Slugs.SuffixBase(two) == Some(x) && Slugs.SuffixBase(twice) == Some(two)
    requires "migration_" <= source
    ensures IsScan(t, [a, b]) && IsScan(t, [b, a]) && Clean(t, [a, b]) != Clean(t, [b, a])
  {
    var row0 := Service(0, x, 0, None, Some(9), true, None, 0, None, None);
    var row1 := Service(0, two, 1, None, Some(9), true, None, 0, Some(source), Some(1));
    var row2 := Service(0, twice, 2, None, Some(9), true, None, 0, Some(source), Some(2));
    t := Tables(map[], map[], map[10 := row0, 11 := row1, 12 := row2], 20);
    a, b := (11, row1), (12, row2);
    ScanOfTwo(t, a, b);
    ScanOfTwo(t, b, a);
    FirstRowDecides(t, row0, row1, row2, x, two);
    TwoRows(t, a, b);
    TwoRows(t, b, a);
  }

  lemma FirstRowDecides(t: Tables, row0: Service, row1: Service, row2: Service, x: string, two: string)
    requires t.services == map[10 := row0, 11 := row1, 12 := row2]
    requires row0.catalog == row1.catalog == row2.catalog && row0.catalog.Some?
    requires row0.user == row1.user == row2.user && row0.active && row1.active && row2.active
    requires row0.slug == x && row1.slug == two && |x| < |two|
    requires Slugs.SuffixBase(two) == Some(x) && Slugs.SuffixBase(row2.slug) == Some(two)
    ensures 12 in CleanOne(CleanOne(t, (11, row1)), (12, row2)).services
    ensures 12 !in CleanOne(CleanOne(t, (12, row2)), (11, row1)).services
  {
    assert IsBaseOf(t.services[10], row1, x) && IsBaseOf(t.services[11], row2, two);
    var u := CleanOne(t, (11, row1));
    assert u.services == map[10 := row0, 12 := row2];
    assert !Removable(u, row2);
  }

  lemma ScanOfTwo(t: Tables, a: Row, b: Row)
    requires a.0 != b.0 && Selected(a.1) && Selected(b.1)
    requires a.0 in t.services && t.services[a.0] == a.1
    requires b.0 in t.services && t.services[b.0] == b.1
    requires forall i :: i in t.services && Selected(t.services[i]) ==> i == a.0 || i == b.0
    ensures IsScan(t, [a, b])
  {
    var rows := [a, b];
    assert rows[0] == a && rows[1] == b;
  }

  lemma TwoRows(t: Tables, a: Row, b: Row)
    ensures Clean(t, [a, b]) == CleanOne(CleanOne(t, a), b)
  {
    var rows := [a, b];
    assert rows[1..] == [b];
    var u := CleanOne(t, a);
    assert Clean(u, [b]) == CleanOne(u, b);
  }

  // ---- the single writes of a deletion ----

  /** Service first, then endpoint, then key: after each of the three writes every
      active service still finds its endpoint and key. */
  lemma RemovalStepsAreIntact(t: Tables, i: Id)
    requires SoundTables(t) && i in t.services && IsMigrated(t.services[i])
    ensures SoundTables(Remove(t, i, t.services[i]))
    ensures var s := t.services[i];
            var t1 := Apply(t, DropService(i));
            var t2 := Apply(t1, DropEndpoint(s.endpoint));
            && Intact(t1) && Intact(t2)
            && Remove(t, i, s) == if s.key.Some? then Apply(t2, DropKey(s.key.value)) else t2
  {
    var s := t.services[i];
    var t1 := Apply(t, DropService(i));
    var t2 := Apply(t1, DropEndpoint(s.endpoint));
    assert Intact(t1);
    assert Intact(t2);
    if s.key.Some? {
      assert Intact(Apply(t2, DropKey(s.key.value)));
    }
  }
}
