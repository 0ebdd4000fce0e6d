/** Keyset pages: `find(_id > after).sort(_id).limit(n)` over a collection that the
    primary index lists in ascending order. */
module Paging {
  import opened Options
  import opened UserTables

  ghost predicate Increasing(ids: seq<Id>) {
    forall j, k :: 0 <= j < k < |ids| ==> ids[j] < ids[k]
  }

  predicate Behind(after: Option<Id>, i: Id) {
    after.Some? ==> after.value < i
  }

  function RowsBehind(ids: seq<Id>, after: Option<Id>): seq<Id>
    decreases ids
  {
    if ids == [] then []
    else (if Behind(after, ids[0]) then [ids[0]] else []) + RowsBehind(ids[1..], after)
  }

  function AtMost(rows: seq<Id>, limit: nat): seq<Id> {
    if |rows| <= limit then rows else rows[..limit]
  }

  /** The page behind `after`, at most `limit` rows. */
  function Page(ids: seq<Id>, after: Option<Id>, limit: nat): seq<Id> {
    AtMost(RowsBehind(ids, after), limit)
  }

  function LastOf(ids: seq<Id>): Option<Id> {
    if ids == [] then None else Some(ids[|ids| - 1])
  }

  lemma {:induction false} RowsBehindAreATail(ids: seq<Id>, after: Option<Id>, k: nat)
    requires k <= |ids|
    requires forall j :: 0 <= j < k ==> !Behind(after, ids[j])
    requires forall j :: k <= j < |ids| ==> Behind(after, ids[j])
    ensures RowsBehind(ids, after) == ids[k..]
    decreases ids
  {
    if ids != [] {
      RowsBehindAreATail(ids[1..], after, if k == 0 then 0 else k - 1);
    }
  }

  /** The page behind the k-th row takes the list one stretch further, as far as the limit
      lets it, and an empty page says that the list is complete: no row is skipped or seen
      twice. */
  lemma NextPage(ids: seq<Id>, k: nat, limit: nat)
    requires Increasing(ids) && k <= |ids| && limit > 0
    ensures var page := Page(ids, LastOf(ids[..k]), limit);
            && |page| == (if |ids| - k <= limit then |ids| - k else limit)
            && ids[..k + |page|] == ids[..k] + page
            && (page != [] ==> LastOf(ids[..k + |page|]) == LastOf(page))
            && (page == [] ==> ids[..k] == ids)
            && (forall i :: i in page ==> i in ids)
  {
    var after := LastOf(ids[..k]);
    if k > 0 {
      assert after == Some(ids[k - 1]);
    }
    RowsBehindAreATail(ids, after, k);
  }
}
