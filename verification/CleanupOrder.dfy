/** When the cleanup pass leaves the same tables for every order in which the database
    may hand out its scan (backend/src/db.rs, `cleanup_duplicate_migration_services`). */
module CleanupOrder {
  import opened Options
  import opened UserTables
  import opened Cleanup
  import Slugs

  /** The scan selects the row, and its base exists. */
  predicate Doomed(t: Tables, i: Id) {
    i in t.services && Selected(t.services[i]) && Removable(t, t.services[i])
  }

  predicate IsBase(t: Tables, j: Id, i: Id)
    requires i in t.services && Slugs.SuffixBase(t.services[i].slug).Some?
  {
    j in t.services && IsBaseOf(t.services[j], t.services[i], Slugs.SuffixBase(t.services[i].slug).value)
  }

  predicate HasFirmBase(t: Tables, i: Id)
    requires i in t.services && Slugs.SuffixBase(t.services[i].slug).Some?
  {
    exists j :: j in t.services && IsBase(t, j, i) && !Doomed(t, j)
  }

  /** Every doomed row has a base that is not doomed itself. */
  predicate BasesAreFirm(t: Tables) {
    forall i :: i in t.services && Doomed(t, i) ==> HasFirmBase(t, i)
  }

  ghost predicate OrderFree(t: Tables) {
    forall a, b :: IsScan(t, a) && IsScan(t, b) ==> Clean(t, a) == Clean(t, b)
  }

  // ---- firm bases: the pass removes exactly the doomed rows ----

  function DoomedIn(t: Tables, rows: seq<Row>): set<Row> {
    set row | row in rows && Doomed(t, row.0)
  }

  function Without(u: Tables, gone: set<Row>): Tables {
    u.(services := u.services - (set row | row in gone :: row.0),
       endpoints := u.endpoints - (set row | row in gone :: row.1.endpoint),
       keys := u.keys - (set row | row in gone && row.1.key.Some? :: row.1.key.value))
  }

  /** The pass over `t` has come to `u`: old rows only, all of those that are not doomed. */
  predicate Underway(t: Tables, u: Tables) {
    && (forall i :: i in u.services ==> i in t.services && u.services[i] == t.services[i])
    && (forall i :: i in t.services && !Doomed(t, i) ==> i in u.services)
  }

  lemma RemovedWhenDoomed(t: Tables, u: Tables, row: Row)
    requires BasesAreFirm(t) && Underway(t, u)
    requires row.0 in t.services && t.services[row.0] == row.1 && Selected(row.1)
    ensures Removable(u, row.1) <==> Doomed(t, row.0)
  {
    if Doomed(t, row.0) {
      assert HasFirmBase(t, row.0);
      var j :| j in t.services && IsBase(t, j, row.0) && !Doomed(t, j);
      assert j in u.services && IsBaseOf(u.services[j], row.1, Slugs.SuffixBase(row.1.slug).value);
    }
  }

  lemma OneLess(u: Tables, row: Row, gone: set<Row>)
    ensures Without(Remove(u, row.0, row.1), gone) == Without(u, {row} + gone)
  {
  }

  lemma DoomedInStep(t: Tables, row: Row, rest: seq<Row>)
    ensures DoomedIn(t, [row] + rest) == (if Doomed(t, row.0) then {row} else {}) + DoomedIn(t, rest)
  {
  }

  lemma StillUnderway(t: Tables, u: Tables, row: Row)
    requires BasesAreFirm(t) && Underway(t, u)
    requires row.0 in t.services && t.services[row.0] == row.1 && Selected(row.1)
    ensures Underway(t, CleanOne(u, row))
    ensures CleanOne(u, row) == if Doomed(t, row.0) then Remove(u, row.0, row.1) else u
  {
    RemovedWhenDoomed(t, u, row);
  }

  predicate Scanned(t: Tables, rows: seq<Row>) {
    forall row :: row in rows ==> row.0 in t.services && t.services[row.0] == row.1 && Selected(row.1)
  }

  lemma NothingGone(u: Tables)
    ensures Without(u, {}) == u
  {
  }

  lemma OneMoreGone(t: Tables, u: Tables, row: Row, rest: seq<Row>)
    ensures Without(if Doomed(t, row.0) then Remove(u, row.0, row.1) else u, DoomedIn(t, rest)) ==
            Without(u, DoomedIn(t, [row] + rest))
  {
    DoomedInStep(t, row, rest);
    if Doomed(t, row.0) {
      OneLess(u, row, DoomedIn(t, rest));
    } else {
      assert {} + DoomedIn(t, rest) == DoomedIn(t, rest);
    }
  }

  lemma {:induction false} ExactlyTheDoomedGo(t: Tables, u: Tables, rows: seq<Row>)
    requires BasesAreFirm(t) && Underway(t, u) && Scanned(t, rows)
    ensures Clean(u, rows) == Without(u, DoomedIn(t, rows))
    decreases rows
  {
    if rows == [] {
      assert DoomedIn(t, rows) == {};
      NothingGone(u);
    } else {
      var row, rest := rows[0], rows[1..];
      assert rows == [row] + rest;
      ScannedParts(t, row, rest);
      StillUnderway(t, u, row);
      ExactlyTheDoomedGo(t, CleanOne(u, row), rest);
      OneMoreGone(t, u, row, rest);
    }
  }

  lemma ScannedParts(t: Tables, row: Row, rest: seq<Row>)
    requires Scanned(t, [row] + rest)
    ensures row.0 in t.services && t.services[row.0] == row.1 && Selected(row.1) && Scanned(t, rest)
  {
    var rows := [row] + rest;
    assert row in rows;
    assert forall r :: r in rest ==> r in rows;
  }

  /** Two scans list the same rows. */
  lemma FirmBasesAreEnough(t: Tables, a: seq<Row>, b: seq<Row>)
    requires BasesAreFirm(t) && IsScan(t, a) && IsScan(t, b)
    ensures Clean(t, a) == Clean(t, b)
  {
    ScanMembers(t, a);
    ScanMembers(t, b);
    ExactlyTheDoomedGo(t, t, a);
    ExactlyTheDoomedGo(t, t, b);
    assert DoomedIn(t, a) == DoomedIn(t, b);
  }

  lemma ScanMembers(t: Tables, rows: seq<Row>)
    requires IsScan(t, rows)
    ensures forall row :: row in rows <==> row.0 in t.services && t.services[row.0] == row.1 && Selected(row.1)
  {
  }

  // ---- otherwise two orders differ ----

  lemma {:induction false} CleanInTwoParts(t: Tables, a: seq<Row>, b: seq<Row>)
    ensures Clean(t, a + b) == Clean(Clean(t, a), b)
    decreases a
  {
    if a == [] {
      assert a + b == b;
    } else {
      assert (a + b)[0] == a[0] && (a + b)[1..] == a[1..] + b;
      CleanInTwoParts(CleanOne(t, a[0]), a[1..], b);
    }
  }

  /** The rows with these identifiers, in some order. */
  lemma {:induction false} ListRows(t: Tables, ids: set<Id>) returns (rows: seq<Row>)
    requires forall i :: i in ids ==> i in t.services && Selected(t.services[i])
    ensures RowsOf(t, rows) && forall row :: row in rows <==> row.0 in ids && row.1 == t.services[row.0]
    decreases |ids|
  {
    if ids == {} {
      rows := [];
    } else {
      var i :| i in ids;
      var rest := ListRows(t, ids - {i});
      rows := [(i, t.services[i])] + rest;
      forall k | 0 <= k < |rest|
        ensures rest[k].0 != i
      {
        assert rest[k] in rest;
      }
    }
  }

  lemma Scan(t: Tables, first: seq<Row>, ids: set<Id>) returns (scan: seq<Row>, rest: seq<Row>)
    requires RowsOf(t, first) && forall row :: row in first <==> row.0 in ids && row.0 in t.services && row.1 == t.services[row.0]
    requires forall i :: i in ids ==> i in t.services
    ensures scan == first + rest && IsScan(t, scan)
    ensures forall row :: row in rest ==> row.0 in t.services && row.1 == t.services[row.0]
  {
    var others := set i | i in t.services && Selected(t.services[i]) && i !in ids;
    rest := ListRows(t, others);
    scan := first + rest;
    forall k, l | 0 <= k < |first| && 0 <= l < |rest|
      ensures first[k].0 != rest[l].0
    {
      assert first[k] in first && rest[l] in rest;
    }
  }

  /** The common user, catalog entry and slug of a set of bases. */
  predicate Alike(s: Service, r: Service) {
    s.user == r.user && s.catalog == r.catalog && s.slug == r.slug
  }

  /** Rows of the same name do not depend on each other: scanned first, all of them go. */
  lemma {:induction false} NamesakesGo(t: Tables, rows: seq<Row>)
    requires RowsOf(t, rows)
    requires forall row :: row in rows ==> Removable(t, row.1)
    requires forall row, other :: row in rows && other in rows ==> Alike(row.1, other.1)
    ensures forall row :: row in rows ==> row.0 !in Clean(t, rows).services
    decreases rows
  {
    if rows != [] {
      var row, rest := rows[0], rows[1..];
      var u := CleanOne(t, row);
      assert row in rows && rows == [row] + rest;
      StepKeepsRest(t, rows);
      forall other | other in rest
        ensures Removable(u, other.1)
      {
        assert other in rows;
        NamesakeKeepsBase(t, row, other.1);
      }
      NamesakesGo(u, rest);
      CleanedRowsAreOldRows(u, rest);
    }
  }

  lemma NamesakeKeepsBase(t: Tables, row: Row, s: Service)
    requires row.0 in t.services && t.services[row.0] == row.1 && Alike(row.1, s) && Removable(t, s)
    ensures Removable(CleanOne(t, row), s)
  {
    var base := Slugs.SuffixBase(s.slug).value;
    var j :| j in t.services && IsBaseOf(t.services[j], s, base);
    assert |base| < |s.slug| && j != row.0;
    assert IsBaseOf(CleanOne(t, row).services[j], s, base);
  }

  /** Without a base a row stays. */
  lemma {:induction false} BaselessStays(t: Tables, rows: seq<Row>, i: Id)
    requires i in t.services && !Removable(t, t.services[i])
    requires forall row :: row in rows && row.0 == i ==> row.1 == t.services[i]
    ensures i in Clean(t, rows).services
    decreases rows
  {
    if rows != [] {
      var row, rest := rows[0], rows[1..];
      assert rows == [row] + rest && row in rows;
      var u := CleanOne(t, row);
      assert i in u.services && u.services[i] == t.services[i];
      assert forall j :: j in u.services ==> j in t.services && u.services[j] == t.services[j];
      BaselessStays(u, rest, i);
    }
  }

  lemma RowFirst(t: Tables, i: Id) returns (scan: seq<Row>)
    requires Doomed(t, i)
    ensures IsScan(t, scan) && i !in Clean(t, scan).services
  {
    var row := (i, t.services[i]);
    var rest;
    assert forall k :: 0 <= k < |[row]| ==> [row][k] == row;
    scan, rest := Scan(t, [row], {i});
    CleanInTwoParts(t, [row], rest);
    var nothing: seq<Row> := [];
    assert [row][1..] == nothing && Clean(t, [row]) == CleanOne(t, row);
    CleanedRowsAreOldRows(CleanOne(t, row), rest);
  }

  lemma BasesGo(t: Tables, i: Id, bases: seq<Row>)
    requires Doomed(t, i) && RowsOf(t, bases)
    requires forall row :: row in bases ==> row.1 == t.services[row.0] && IsBase(t, row.0, i) && Doomed(t, row.0)
    ensures forall row :: row in bases ==> row.0 !in Clean(t, bases).services
  {
    NamesakesGo(t, bases);
  }

  lemma AfterBases(t: Tables, i: Id, bases: seq<Row>)
    requires Doomed(t, i) && RowsOf(t, bases)
    requires forall row :: row in bases ==> row.1 == t.services[row.0] && IsBase(t, row.0, i) && Doomed(t, row.0)
    requires forall j :: j in t.services && IsBase(t, j, i) ==> (j, t.services[j]) in bases
    ensures var u := Clean(t, bases);
      i in u.services && u.services[i] == t.services[i] && !Removable(u, t.services[i])
  {
    BasesGo(t, i, bases);
    CleanedRowsAreOldRows(t, bases);
    forall row | row in bases
      ensures row.0 != i
    {
      assert IsBase(t, row.0, i) && |Slugs.SuffixBase(t.services[i].slug).value| < |t.services[i].slug|;
    }
    OthersStay(t, bases, i);
    forall j | j in t.services && IsBase(t, j, i)
      ensures j !in Clean(t, bases).services
    {
      assert (j, t.services[j]) in bases;
    }
  }

  lemma BasesFirst(t: Tables, i: Id) returns (scan: seq<Row>)
    requires Doomed(t, i) && !HasFirmBase(t, i)
    ensures IsScan(t, scan) && i in Clean(t, scan).services
  {
    var ids := set j | j in t.services && IsBase(t, j, i);
    assert forall j :: j in ids ==> Doomed(t, j);
    var bases := ListRows(t, ids);
    AfterBases(t, i, bases);
    var rest;
    scan, rest := Scan(t, bases, ids);
    CleanInTwoParts(t, bases, rest);
    BaselessStays(Clean(t, bases), rest, i);
  }

  lemma {:induction false} OthersStay(t: Tables, rows: seq<Row>, i: Id)
    requires i in t.services && forall row :: row in rows ==> row.0 != i
    ensures i in Clean(t, rows).services && Clean(t, rows).services[i] == t.services[i]
    decreases rows
  {
    if rows != [] {
      assert rows[0] in rows && rows == [rows[0]] + rows[1..];
      OthersStay(CleanOne(t, rows[0]), rows[1..], i);
    }
  }

  /** The result of the pass is the same for every order of the scan if and only if
      every row that has a base when the pass starts has one that is not removable. */
  lemma OrderFreeExactly(t: Tables)
    ensures OrderFree(t) <==> BasesAreFirm(t)
  {
    if BasesAreFirm(t) {
      forall a, b | IsScan(t, a) && IsScan(t, b)
        ensures Clean(t, a) == Clean(t, b)
      {
        FirmBasesAreEnough(t, a, b);
      }
    } else {
      var i :| i in t.services && Doomed(t, i) && !HasFirmBase(t, i);
      var a := RowFirst(t, i);
      var b := BasesFirst(t, i);
      assert IsScan(t, a) && IsScan(t, b);
    }
  }
}
