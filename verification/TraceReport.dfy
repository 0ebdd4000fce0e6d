/** Grouping the collected records into spans (scripts/turn-trace.py, `report`). */
module TraceReport {
  import opened Options
  import opened Timestamps
  import opened TraceRecords

  datatype GroupKey = Root | Span(service: string, instance: string, span: string)

  datatype Role = Link | Milestone | Contribution(key: GroupKey)

  predicate IsRoot(r: Record) {
    r.stage in {"admission", "execution"} && r.parent.None?
  }

  function KeyFor(r: Record): GroupKey {
    if IsRoot(r) then Root else Span(r.service, r.instance, r.span)
  }

  function RoleOf(r: Record): Role {
    if r.phase == "link" then Link
    else if r.phase == "milestone" && !IsRoot(r) then Milestone
    else Contribution(KeyFor(r))
  }

  predicate Starts(r: Record) {
    r.phase == "start"
  }

  predicate Closes(r: Record) {
    r.phase == "end" || (IsRoot(r) && r.phase == "milestone")
  }

  datatype Item = Item(
    service: string, span: string, stage: string, parent: Option<string>, root: bool, part: Option<nat>,
    instances: set<string>, start: Option<Instant>, end: Option<Instant>,
    duration: Option<nat>, outcome: string, status: Option<nat>, error: Option<nat>)

  /** Timestamps are compared as normalised texts. */
  predicate Before(a: Instant, b: Instant) {
    TextLess(PrintUtc(a), PrintUtc(b))
  }

  lemma BeforeIsEarlier(a: Instant, b: Instant)
    ensures Before(a, b) <==> Micros(a) < Micros(b)
    ensures Micros(a) == Micros(b) <==> a == b
  {
    TextOrderIsTimeOrder(a, b);
  }

  function NewItem(r: Record): Item {
    Item(r.service, r.span, if IsRoot(r) then "execution" else r.stage, r.parent, IsRoot(r), r.part,
      {}, None, None, None, "unknown", None, None)
  }

  function EarlierStart(start: Option<Instant>, time: Instant): Option<Instant> {
    if start.Some? && !Before(time, start.value) then start else Some(time)
  }

  predicate Reaches(end: Option<Instant>, time: Instant) {
    end.None? || !Before(time, end.value)
  }

  function Or<T>(v: Option<T>, otherwise: Option<T>): Option<T> {
    if v.Some? then v else otherwise
  }

  function Closed(item: Item, r: Record): Item {
    if !Reaches(item.end, r.timestamp) then item
    else item.(
      end := Some(r.timestamp), duration := Or(r.duration, item.duration),
      outcome := if r.outcome.Some? then r.outcome.value else item.outcome,
      status := Or(r.status, item.status), error := Or(r.error, item.error))
  }

  /** What one contribution does to its group. */
  function Absorb(item: Item, r: Record): Item {
    var met := item.(instances := item.instances + {r.instance});
    var started := if Starts(r) then met.(start := EarlierStart(met.start, r.timestamp)) else met;
    if Closes(r) then Closed(started, r) else started
  }

  function ItemOf(cs: seq<Record>): Item
    requires cs != []
  {
    var last := cs[|cs| - 1];
    Absorb(if |cs| == 1 then NewItem(last) else ItemOf(cs[..|cs| - 1]), last)
  }

  /** The records with a role, in order. */
  function WithRole(records: seq<Record>, role: Role): seq<Record> {
    if records == [] then []
    else
      var rest, last := WithRole(records[..|records| - 1], role), records[|records| - 1];
      if RoleOf(last) == role then rest + [last] else rest
  }

  lemma WithRoleStep(records: seq<Record>, i: nat, role: Role)
    requires i < |records|
    ensures WithRole(records[..i + 1], role) ==
      WithRole(records[..i], role) + if RoleOf(records[i]) == role then [records[i]] else []
  {
    assert records[..i + 1][..i] == records[..i];
  }

  datatype Grouping = Grouping(groups: map<GroupKey, Item>, milestones: seq<Record>, links: seq<Record>)

  ghost predicate Groups(groups: map<GroupKey, Item>, records: seq<Record>) {
    && (forall k :: k in groups <==> WithRole(records, Contribution(k)) != [])
    && (forall k :: k in groups ==> groups[k] == ItemOf(WithRole(records, Contribution(k))))
  }

  lemma ItemOfSnoc(cs: seq<Record>, r: Record)
    ensures ItemOf(cs + [r]) == Absorb(if cs == [] then NewItem(r) else ItemOf(cs), r)
  {
    assert (cs + [r])[..|cs|] == cs;
  }

  lemma GroupsStep(groups: map<GroupKey, Item>, records: seq<Record>, i: nat, after: map<GroupKey, Item>)
    requires i < |records| && Groups(groups, records[..i])
    requires RoleOf(records[i]).Contribution? ==>
      var k := RoleOf(records[i]).key;
      after == groups[k := Absorb(if k in groups then groups[k] else NewItem(records[i]), records[i])]
    requires !RoleOf(records[i]).Contribution? ==> after == groups
    ensures Groups(after, records[..i + 1])
  {
    forall k | true
      ensures k in after <==> WithRole(records[..i + 1], Contribution(k)) != []
      ensures k in after ==> after[k] == ItemOf(WithRole(records[..i + 1], Contribution(k)))
    {
      WithRoleStep(records, i, Contribution(k));
      var cs := WithRole(records[..i], Contribution(k));
      if RoleOf(records[i]) == Contribution(k) {
        ItemOfSnoc(cs, records[i]);
      } else {
        assert WithRole(records[..i + 1], Contribution(k)) == cs;
      }
    }
  }

  /** The loop of the report: links and milestones are set aside, everything else is
      absorbed by the group of its key. */
  method Group(records: seq<Record>) returns (g: Grouping)
    ensures Groups(g.groups, records)
    ensures g.links == WithRole(records, Link) && g.milestones == WithRole(records, Milestone)
  {
    var groups: map<GroupKey, Item>, milestones: seq<Record>, links: seq<Record> := map[], [], [];
    for i := 0 to |records|
      invariant Groups(groups, records[..i])
      invariant links == WithRole(records[..i], Link) && milestones == WithRole(records[..i], Milestone)
    {
      var record := records[i];
      ghost var before := groups;
      WithRoleStep(records, i, Link);
      WithRoleStep(records, i, Milestone);
      if record.phase == "link" {
        links := links + [record];
      } else if record.phase == "milestone" && !IsRoot(record) {
        milestones := milestones + [record];
      } else {
        var key := KeyFor(record);
        if key !in groups {
          groups := groups[key := NewItem(record)];
        }
        var item := groups[key];
        item := item.(instances := item.instances + {record.instance});
        if Starts(record) {
          item := item.(start := EarlierStart(item.start, record.timestamp));
        }
        if Closes(record) {
          item := CloseItem(item, record);
        }
        groups := groups[key := item];
        assert groups == before[key := item];
      }
      GroupsStep(before, records, i, groups);
    }
    assert records[..|records|] == records;
    g := Grouping(groups, milestones, links);
  }

  /** A record at or after the current end replaces it and overwrites the fields it carries. */
  method CloseItem(item0: Item, r: Record) returns (item: Item)
    ensures item == Closed(item0, r)
  {
    item := item0;
    if item.end.None? || !Before(r.timestamp, item.end.value) {
      item := item.(end := Some(r.timestamp));
      if r.duration.Some? {
        item := item.(duration := r.duration);
      }
      if r.outcome.Some? {
        item := item.(outcome := r.outcome.value);
      }
      if r.status.Some? {
        item := item.(status := r.status);
      }
      if r.error.Some? {
        item := item.(error := r.error);
      }
    }
  }

  // ---- a partition of the records ----

  function RoleKinds(records: seq<Record>): seq<Record> {
    if records == [] then []
    else
      var rest, last := RoleKinds(records[..|records| - 1]), records[|records| - 1];
      if RoleOf(last).Contribution? then rest + [last] else rest
  }

  /** Every record is used exactly once. */
  lemma {:induction false} RolesPartitionTheRecords(records: seq<Record>)
    ensures multiset(WithRole(records, Link)) + multiset(WithRole(records, Milestone)) + multiset(RoleKinds(records)) ==
            multiset(records)
  {
    if records != [] {
      RolesPartitionTheRecords(records[..|records| - 1]);
      assert records == records[..|records| - 1] + [records[|records| - 1]];
    }
  }

  /** Contributions are counted in the group of their key, as often as they occur. */
  lemma {:induction false} CountWithRole(records: seq<Record>, role: Role, r: Record)
    ensures multiset(WithRole(records, role))[r] == if RoleOf(r) == role then multiset(records)[r] else 0
  {
    if records != [] {
      CountWithRole(records[..|records| - 1], role, r);
      assert records == records[..|records| - 1] + [records[|records| - 1]];
    }
  }

  // ---- what a group says, whatever the order ----

  predicate EarliestStart(cs: seq<Record>, start: Option<Instant>) {
    match start
    case None => forall c :: c in cs ==> !Starts(c)
    case Some(t) =>
      && (exists c :: c in cs && Starts(c) && c.timestamp == t)
      && (forall c :: c in cs && Starts(c) ==> Micros(t) <= Micros(c.timestamp))
  }

  predicate LatestEnd(cs: seq<Record>, end: Option<Instant>) {
    match end
    case None => forall c :: c in cs ==> !Closes(c)
    case Some(t) =>
      && (exists c :: c in cs && Closes(c) && c.timestamp == t)
      && (forall c :: c in cs && Closes(c) ==> Micros(c.timestamp) <= Micros(t))
  }

  lemma StartStep(cs: seq<Record>, start: Option<Instant>, r: Record)
    requires EarliestStart(cs, start)
    ensures EarliestStart(cs + [r], if Starts(r) then EarlierStart(start, r.timestamp) else start)
  {
    if start.Some? {
      BeforeIsEarlier(r.timestamp, start.value);
    }
    assert r in cs + [r];
    forall c | c in cs
      ensures c in cs + [r]
    {
    }
  }

  lemma EndStep(cs: seq<Record>, end: Option<Instant>, r: Record)
    requires LatestEnd(cs, end)
    ensures LatestEnd(cs + [r], if Closes(r) && Reaches(end, r.timestamp) then Some(r.timestamp) else end)
  {
    if end.Some? {
      BeforeIsEarlier(r.timestamp, end.value);
    }
    assert r in cs + [r];
    forall c | c in cs
      ensures c in cs + [r]
    {
    }
  }

  lemma AbsorbTimes(item: Item, r: Record)
    ensures Absorb(item, r).start == if Starts(r) then EarlierStart(item.start, r.timestamp) else item.start
    ensures Absorb(item, r).end == if Closes(r) && Reaches(item.end, r.timestamp) then Some(r.timestamp) else item.end
    ensures Absorb(item, r).instances == item.instances + {r.instance}
  {
  }

  lemma {:induction false} GroupTimes(cs: seq<Record>)
    requires cs != []
    ensures EarliestStart(cs, ItemOf(cs).start)
    ensures LatestEnd(cs, ItemOf(cs).end)
  {
    var before, last := cs[..|cs| - 1], cs[|cs| - 1];
    assert cs == before + [last];
    var item := if before == [] then NewItem(last) else ItemOf(before);
    if before != [] {
      GroupTimes(before);
    }
    StartStep(before, item.start, last);
    EndStep(before, item.end, last);
    AbsorbTimes(item, last);
  }

  lemma {:induction false} GroupInstances(cs: seq<Record>)
    requires cs != []
    ensures ItemOf(cs).instances == set c <- cs :: c.instance
  {
    var before, last := cs[..|cs| - 1], cs[|cs| - 1];
    assert cs == before + [last];
    AbsorbTimes(if before == [] then NewItem(last) else ItemOf(before), last);
    if before != [] {
      GroupInstances(before);
    }
  }

  lemma {:induction false} WithRoleMembers(records: seq<Record>, role: Role)
    ensures forall r :: r in WithRole(records, role) <==> r in records && RoleOf(r) == role
  {
    if records != [] {
      WithRoleMembers(records[..|records| - 1], role);
      assert records == records[..|records| - 1] + [records[|records| - 1]];
    }
  }

  lemma SameMembersSameTimes(cs: seq<Record>, ds: seq<Record>)
    requires cs != [] && ds != [] && forall r :: r in cs <==> r in ds
    ensures ItemOf(cs).start == ItemOf(ds).start && ItemOf(cs).end == ItemOf(ds).end
  {
    GroupTimes(cs);
    GroupTimes(ds);
    var s, t, e, f := ItemOf(cs).start, ItemOf(ds).start, ItemOf(cs).end, ItemOf(ds).end;
    if s.Some? && t.Some? {
      BeforeIsEarlier(s.value, t.value);
    }
    if e.Some? && f.Some? {
      BeforeIsEarlier(e.value, f.value);
    }
  }

  /** Records in any order give the same groups, with the same instances, earliest
      start and latest end. */
  lemma OrderDoesNotMatter(records: seq<Record>, shuffled: seq<Record>, k: GroupKey)
    requires multiset(records) == multiset(shuffled)
    ensures var cs, ds := WithRole(records, Contribution(k)), WithRole(shuffled, Contribution(k));
      && (cs == [] <==> ds == [])
      && (cs != [] ==> ItemOf(cs).instances == ItemOf(ds).instances)
      && (cs != [] ==> ItemOf(cs).start == ItemOf(ds).start && ItemOf(cs).end == ItemOf(ds).end)
  {
    var cs, ds := WithRole(records, Contribution(k)), WithRole(shuffled, Contribution(k));
    assert forall r :: r in records <==> r in multiset(records);
    assert forall r :: r in shuffled <==> r in multiset(shuffled);
    WithRoleMembers(records, Contribution(k));
    WithRoleMembers(shuffled, Contribution(k));
    assert forall r :: r in cs <==> r in ds;
    EmptyAlike(cs, ds);
    if cs != [] {
      GroupInstances(cs);
      GroupInstances(ds);
      SameMembersSameTimes(cs, ds);
    }
  }

  lemma EmptyAlike(cs: seq<Record>, ds: seq<Record>)
    requires forall r :: r in cs <==> r in ds
    ensures cs == [] <==> ds == []
  {
    if cs != [] {
      assert cs[0] in cs;
    }
    if ds != [] {
      assert ds[0] in ds;
    }
  }

  // ---- the groups in the fields of their records ----

  /** A record of the turn as a whole: admission or execution, below no other span. */
  predicate OfRoot(r: Record) {
    (r.stage == "admission" || r.stage == "execution") && r.parent == None
  }

  /** Neither a link nor a milestone inside the turn. */
  predicate IsGrouped(r: Record) {
    r.phase != "link" && (r.phase == "milestone" ==> OfRoot(r))
  }

  /** Two records of one group: both of the root, or of one span of one service instance. */
  predicate Together(r: Record, s: Record) {
    && IsGrouped(r) && IsGrouped(s)
    && ((OfRoot(r) && OfRoot(s))
        || (!OfRoot(r) && !OfRoot(s) && r.service == s.service && r.instance == s.instance && r.span == s.span))
  }

  lemma TogetherExactly(r: Record, s: Record)
    ensures Together(r, s) <==> RoleOf(r).Contribution? && RoleOf(s) == RoleOf(r)
    ensures IsGrouped(r) <==> RoleOf(r).Contribution?
    ensures OfRoot(r) <==> IsRoot(r)
  {
  }

  /** The time of a record that ends its group: an end, or a milestone of the root. */
  predicate EndsGroup(r: Record) {
    r.phase == "end" || (r.phase == "milestone" && OfRoot(r))
  }

  /** The first record of its group. */
  ghost predicate LeadsGroup(records: seq<Record>, k: int) {
    0 <= k < |records| && IsGrouped(records[k]) && forall j :: 0 <= j < k ==> !Together(records[j], records[k])
  }

  lemma {:induction false} FirstOfGroup(records: seq<Record>, k: nat)
    requires LeadsGroup(records, k)
    ensures var cs := WithRole(records, RoleOf(records[k])); cs != [] && cs[0] == records[k]
  {
    var init, last := records[..|records| - 1], records[|records| - 1];
    if k == |records| - 1 {
      WithRoleMembers(init, RoleOf(last));
      forall r | r in init
        ensures RoleOf(r) != RoleOf(last)
      {
        var j :| 0 <= j < |init| && init[j] == r;
        TogetherExactly(records[j], last);
        TogetherExactly(last, last);
      }
      EmptyAlike(WithRole(init, RoleOf(last)), []);
    } else {
      assert LeadsGroup(init, k);
      FirstOfGroup(init, k);
    }
  }

  lemma {:induction false} ItemStartsWith(cs: seq<Record>)
    requires cs != []
    ensures var item, r := ItemOf(cs), cs[0];
      && item.service == r.service && item.span == r.span && item.parent == r.parent && item.part == r.part
      && item.root == OfRoot(r) && item.stage == if OfRoot(r) then "execution" else r.stage
  {
    if |cs| > 1 {
      ItemStartsWith(cs[..|cs| - 1]);
    }
  }

  /** What the item of a record's group says, for every list of records and every record of
      it that is grouped: the group is there, and holds nothing of another one. Its service,
      span, stage, parent and part are those of the first record of the group, its instances
      those of all; it starts with the earliest record of phase `start` and ends with the
      latest one that ends it. */
  lemma GroupInFields(g: Grouping, records: seq<Record>, k: int)
    requires Groups(g.groups, records) && LeadsGroup(records, k)
    ensures RoleOf(records[k]).Contribution? && RoleOf(records[k]).key in g.groups
    ensures var item, first := g.groups[RoleOf(records[k]).key], records[k];
      && item.service == first.service && item.span == first.span && item.parent == first.parent && item.part == first.part
      && item.root == OfRoot(first) && item.stage == (if OfRoot(first) then "execution" else first.stage)
      && item.instances == (set r | r in records && Together(r, first) :: r.instance)
      && (item.start == None <==> forall r :: r in records && Together(r, first) ==> r.phase != "start")
      && (forall r :: r in records && Together(r, first) && r.phase == "start" ==> Micros(item.start.value) <= Micros(r.timestamp))
      && (item.start != None ==> exists r :: r in records && Together(r, first) && r.phase == "start" && Some(r.timestamp) == item.start)
      && (item.end == None <==> forall r :: r in records && Together(r, first) ==> !EndsGroup(r))
      && (forall r :: r in records && Together(r, first) && EndsGroup(r) ==> Micros(r.timestamp) <= Micros(item.end.value))
      && (item.end != None ==> exists r :: r in records && Together(r, first) && EndsGroup(r) && Some(r.timestamp) == item.end)
  {
    var first := records[k];
    var cs := WithRole(records, RoleOf(first));
    FirstOfGroup(records, k);
    TogetherExactly(first, first);
    ItemStartsWith(cs);
    WithRoleMembers(records, RoleOf(first));
    forall r
      ensures Together(r, first) <==> RoleOf(r) == RoleOf(first)
    {
      TogetherExactly(first, r);
      TogetherExactly(r, first);
    }
    GroupInstances(cs);
    GroupTimes(cs);
  }

  /** Every grouped record leads a group or belongs to one that an earlier record leads. */
  lemma {:induction false} EveryRecordHasItsPlace(records: seq<Record>, k: nat)
    requires k < |records| && IsGrouped(records[k])
    ensures exists j :: LeadsGroup(records, j) && j <= k && Together(records[k], records[j])
  {
    if LeadsGroup(records, k) {
      assert Together(records[k], records[k]);
    } else {
      var i :| 0 <= i < k && Together(records[i], records[k]);
      EveryRecordHasItsPlace(records, i);
      var j :| LeadsGroup(records, j) && j <= i && Together(records[i], records[j]);
      assert Together(records[k], records[j]);
    }
  }

  /** Links and milestones inside the turn are set aside. */
  lemma SetAside(records: seq<Record>)
    ensures forall r :: r in WithRole(records, Link) <==> r in records && r.phase == "link"
    ensures forall r :: r in WithRole(records, Milestone) <==> r in records && r.phase == "milestone" && !OfRoot(r)
  {
    WithRoleMembers(records, Link);
    WithRoleMembers(records, Milestone);
  }
}
