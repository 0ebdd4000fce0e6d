/** The three collections the start-up migration writes (endpoints, keys,
    services) and the collections it only reads, as plain values.

    Identifiers are random UUID texts that the code only compares, for equality
    and, in keyset pages, for order; a number stands for each. `next` is the supply
    of identifiers nobody has used yet. Timestamps are not modelled. */
module UserTables {
  import opened Options
  import Slugs

  type Id = nat

  /** Ciphertext, never looked into. */
  type Secret = nat

  datatype Endpoint = Endpoint(user: Id, url: string, catalog: Option<Id>)

  datatype ApiKey = ApiKey(user: Id, secret: Option<Secret>, source: Option<string>, sourceId: Option<Id>)

  datatype Service = Service(
    user: Id, slug: string, endpoint: Id, key: Option<Id>, catalog: Option<Id>, active: bool,
    node: Option<Id>, priority: int, source: Option<string>, sourceId: Option<Id>)

  datatype Tables = Tables(
    endpoints: map<Id, Endpoint>, keys: map<Id, ApiKey>, services: map<Id, Service>, next: Id)

  /** Every identifier in use came from the supply. */
  ghost predicate Supplied(t: Tables) {
    && (forall i :: i in t.endpoints ==> i < t.next)
    && (forall i :: i in t.keys ==> i < t.next)
    && (forall i :: i in t.services ==> i < t.next)
  }

  // ---- queries ----

  /** `find_one` and `update_one` take one row among the matches: the oldest. */
  function Least(s: set<Id>): (m: Id)
    requires s != {}
    ensures m in s && forall x :: x in s ==> m <= x
  {
    LeastExists(s);
    var m :| m in s && forall x :: x in s ==> m <= x;
    m
  }

  lemma {:induction false} LeastExists(s: set<Id>)
    requires s != {}
    ensures exists m :: m in s && forall x :: x in s ==> m <= x
  {
    var y :| y in s;
    if s != {y} {
      assert (s - {y}) + {y} == s;
      LeastExists(s - {y});
      var m :| m in s - {y} && forall x :: x in s - {y} ==> m <= x;
      SmallerOfBoth(s, y, m);
    }
  }

  lemma SmallerOfBoth(s: set<Id>, y: Id, m: Id)
    requires y in s && m in s - {y} && forall x :: x in s - {y} ==> m <= x
    ensures exists best :: best in s && forall x :: x in s ==> best <= x
  {
    var best := if m < y then m else y;
    assert best in s;
    forall x | x in s
      ensures best <= x
    {
      assert x == y || x in s - {y};
    }
  }

  predicate Serves(s: Service, user: Id, catalog: Id) {
    s.active && s.user == user && s.catalog == Some(catalog)
  }

  /** The active services of a user for one catalog entry. */
  function Siblings(t: Tables, user: Id, catalog: Id): set<Id> {
    set i | i in t.services && Serves(t.services[i], user, catalog)
  }

  function ActiveSlugs(t: Tables, user: Id): set<string> {
    set i | i in t.services && t.services[i].active && t.services[i].user == user :: t.services[i].slug
  }

  predicate KeyFrom(t: Tables, source: string, sourceId: Id) {
    exists i :: i in t.keys && t.keys[i].source == Some(source) && t.keys[i].sourceId == Some(sourceId)
  }

  predicate ServiceFrom(t: Tables, source: string, sourceId: Id) {
    exists i :: i in t.services && t.services[i].source == Some(source) && t.services[i].sourceId == Some(sourceId)
  }

  /** The resolver queries only the slugs that are candidates. */
  function ResolveSlug(t: Tables, user: Id, base: string): Option<string> {
    Slugs.FirstFree(base, ActiveSlugs(t, user) * Slugs.Candidates(base))
  }

  predicate IsMigrated(s: Service) {
    s.source.Some? && "migration_" <= s.source.value
  }

  // ---- single writes ----

  datatype Write =
    | PutEndpoint(id: Id, endpoint: Endpoint)
    | PutKey(id: Id, key: ApiKey)
    | PutService(id: Id, service: Service)
    | DropEndpoint(id: Id)
    | DropKey(id: Id)
    | DropService(id: Id)

  function Apply(t: Tables, w: Write): Tables {
    match w
    case PutEndpoint(i, e) => t.(endpoints := t.endpoints[i := e])
    case PutKey(i, k) => t.(keys := t.keys[i := k])
    case PutService(i, s) => t.(services := t.services[i := s])
    case DropEndpoint(i) => t.(endpoints := t.endpoints - {i})
    case DropKey(i) => t.(keys := t.keys - {i})
    case DropService(i) => t.(services := t.services - {i})
  }

  // ---- integrity of references ----

  /** Every active service finds its endpoint and its key. */
  ghost predicate Resolves(t: Tables) {
    forall i :: i in t.services && t.services[i].active ==>
      && t.services[i].endpoint in t.endpoints
      && (t.services[i].key.Some? ==> t.services[i].key.value in t.keys)
  }

  /** Services made by a migration share neither endpoint nor key with any other. */
  ghost predicate OwnsExclusively(t: Tables) {
    forall i, j :: i in t.services && j in t.services && i != j && IsMigrated(t.services[i]) ==>
      && t.services[i].endpoint != t.services[j].endpoint
      && (t.services[i].key.Some? ==> t.services[i].key != t.services[j].key)
  }

  ghost predicate Intact(t: Tables) {
    Resolves(t) && OwnsExclusively(t)
  }

  /** References of services stay inside the supply as well. */
  ghost predicate RefsSupplied(t: Tables) {
    forall i :: i in t.services ==>
      && t.services[i].endpoint < t.next
      && (t.services[i].key.Some? ==> t.services[i].key.value < t.next)
  }

  ghost predicate SoundTables(t: Tables) {
    Intact(t) && Supplied(t) && RefsSupplied(t)
  }

  // ---- rows a migration adds ----

  /** What a copy is going to insert, before identifiers are drawn for it. */
  datatype Draft = Draft(
    user: Id, url: string, catalog: Option<Id>, slug: string, secret: Option<Secret>,
    node: Option<Id>, priority: int, source: string, sourceId: Id)

  function DraftEndpoint(d: Draft): Endpoint {
    Endpoint(d.user, d.url, d.catalog)
  }

  function DraftKey(d: Draft): ApiKey {
    ApiKey(d.user, d.secret, Some(d.source), Some(d.sourceId))
  }

  function DraftService(d: Draft, endpoint: Id, key: Id): Service {
    Service(d.user, d.slug, endpoint, Some(key), d.catalog, true, d.node, d.priority, Some(d.source), Some(d.sourceId))
  }

  /** Insertion of the three rows under fresh identifiers. */
  function Insert(t: Tables, d: Draft): Tables {
    Tables(
      t.endpoints[t.next := DraftEndpoint(d)],
      t.keys[t.next + 1 := DraftKey(d)],
      t.services[t.next + 2 := DraftService(d, t.next, t.next + 1)],
      t.next + 3)
  }

  /** The unique indexes: (source, source id) on keys and on services, and
      (user, slug) on active services. */
  predicate BreaksIndex(t: Tables, d: Draft) {
    KeyFrom(t, d.source, d.sourceId) || ServiceFrom(t, d.source, d.sourceId) || d.slug in ActiveSlugs(t, d.user)
  }

  // ---- growth: what the copy phases do to the tables ----

  predicate SameButNode(a: Service, b: Service) {
    a.(node := None, priority := 0) == b.(node := None, priority := 0)
  }

  ghost predicate Grows(t: Tables, u: Tables) {
    && (forall i :: i in t.endpoints ==> i in u.endpoints && u.endpoints[i] == t.endpoints[i])
    && (forall i :: i in t.keys ==> i in u.keys && u.keys[i] == t.keys[i])
    && (forall i :: i in t.services ==> i in u.services && SameButNode(t.services[i], u.services[i]))
    && t.next <= u.next
  }

  lemma GrowsTransitive(t: Tables, u: Tables, v: Tables)
    requires Grows(t, u) && Grows(u, v)
    ensures Grows(t, v)
  {
  }

  lemma InsertGrows(t: Tables, d: Draft)
    requires Supplied(t)
    ensures Grows(t, Insert(t, d)) && Supplied(Insert(t, d))
    ensures KeyFrom(Insert(t, d), d.source, d.sourceId) && ServiceFrom(Insert(t, d), d.source, d.sourceId)
  {
    var u := Insert(t, d);
    assert u.keys[t.next + 1].sourceId == Some(d.sourceId);
    assert u.services[t.next + 2].sourceId == Some(d.sourceId);
  }

  /** Growth never makes a guard pass that stopped a copy before. */
  lemma GrowthKeepsGuards(t: Tables, u: Tables)
    requires Grows(t, u)
    ensures forall s, i :: KeyFrom(t, s, i) ==> KeyFrom(u, s, i)
    ensures forall s, i :: ServiceFrom(t, s, i) ==> ServiceFrom(u, s, i)
    ensures forall user, c :: Siblings(t, user, c) <= Siblings(u, user, c)
    ensures forall user :: ActiveSlugs(t, user) <= ActiveSlugs(u, user)
    ensures forall user, b :: ResolveSlug(t, user, b).None? ==> ResolveSlug(u, user, b).None?
  {
    forall user
      ensures ActiveSlugs(t, user) <= ActiveSlugs(u, user)
    {
      forall slug | slug in ActiveSlugs(t, user)
        ensures slug in ActiveSlugs(u, user)
      {
        var i :| i in t.services && t.services[i].active && t.services[i].user == user && t.services[i].slug == slug;
        assert u.services[i].slug == slug;
      }
    }
    forall user, b | ResolveSlug(t, user, b).None?
      ensures ResolveSlug(u, user, b).None?
    {
      Slugs.FilteredQueryAgrees(b, ActiveSlugs(t, user));
      Slugs.FilteredQueryAgrees(b, ActiveSlugs(u, user));
      Slugs.ExhaustionIsMonotone(b, ActiveSlugs(t, user), ActiveSlugs(u, user));
    }
  }

  /** The slug the resolver hands out collides with no active slug of the user. */
  lemma ResolvedSlugIsFree(t: Tables, user: Id, base: string)
    requires ResolveSlug(t, user, base).Some?
    ensures ResolveSlug(t, user, base).value !in ActiveSlugs(t, user)
  {
    Slugs.FilteredQueryAgrees(base, ActiveSlugs(t, user));
    Slugs.FirstFreeIsSoundAndMinimal(base, ActiveSlugs(t, user), ResolveSlug(t, user, base).value);
  }

  // ---- the single writes of an insertion ----

  function InsertWrites(t: Tables, d: Draft): seq<Write> {
    [ PutEndpoint(t.next, DraftEndpoint(d)),
      PutKey(t.next + 1, DraftKey(d)),
      PutService(t.next + 2, DraftService(d, t.next, t.next + 1)) ]
  }

  lemma IntactAfterOwned(t: Tables, u: Tables)
    requires Intact(t)
    requires u.services == t.services && t.endpoints.Keys <= u.endpoints.Keys && t.keys.Keys <= u.keys.Keys
    ensures Intact(u)
  {
  }

  lemma IntactAfterService(t: Tables, i: Id, s: Service)
    requires Intact(t) && i !in t.services
    requires s.endpoint in t.endpoints && (s.key.Some? ==> s.key.value in t.keys)
    requires forall j :: j in t.services ==> t.services[j].endpoint != s.endpoint
    requires forall j :: j in t.services && s.key.Some? ==> t.services[j].key != s.key
    ensures Intact(Apply(t, PutService(i, s)))
  {
    var u := Apply(t, PutService(i, s));
    forall a, b | a in u.services && b in u.services && a != b && IsMigrated(u.services[a])
      ensures u.services[a].endpoint != u.services[b].endpoint
      ensures u.services[a].key.Some? ==> u.services[a].key != u.services[b].key
    {
      if a != i && b != i {
        assert u.services[a] == t.services[a] && u.services[b] == t.services[b];
      }
    }
  }

  /** Endpoint, key, service: after each insert, and after the deletion of the
      endpoint when the service could not be inserted, every active service finds
      its endpoint and key. */
  lemma InsertionStepsAreIntact(t: Tables, d: Draft)
    requires SoundTables(t)
    ensures var ws := InsertWrites(t, d);
            && Intact(Apply(t, ws[0]))
            && Intact(Apply(t, ws[1]))
            && Intact(Apply(Apply(t, ws[0]), ws[1]))
            && Intact(Apply(Apply(Apply(t, ws[0]), ws[1]), ws[2]))
            && Apply(Apply(Apply(t, ws[0]), ws[1]), ws[2]).(next := t.next + 3) == Insert(t, d)
  {
    var ws := InsertWrites(t, d);
    IntactAfterOwned(t, Apply(t, ws[0]));
    IntactAfterOwned(t, Apply(t, ws[1]));
    var t2 := Apply(Apply(t, ws[0]), ws[1]);
    IntactAfterOwned(t, t2);
    IntactAfterService(t2, t.next + 2, ws[2].service);
  }

  lemma InsertKeepsSound(t: Tables, d: Draft)
    requires SoundTables(t)
    ensures SoundTables(Insert(t, d))
  {
    InsertionStepsAreIntact(t, d);
    InsertGrows(t, d);
    InsertKeepsRefs(t, d);
  }

  lemma InsertKeepsRefs(t: Tables, d: Draft)
    requires RefsSupplied(t)
    ensures RefsSupplied(Insert(t, d))
  {
  }

  /** The compensation of a failed insertion: delete what was put before it. */
  lemma CompensationRestores(t: Tables, d: Draft)
    requires Supplied(t)
    ensures Apply(Apply(t, InsertWrites(t, d)[0]), DropEndpoint(t.next)) == t
    ensures Apply(Apply(Apply(Apply(t, InsertWrites(t, d)[0]), InsertWrites(t, d)[1]),
                        DropEndpoint(t.next)), DropKey(t.next + 1)) == t
  {
    var put := Apply(t, InsertWrites(t, d)[0]);
    assert put.endpoints - {t.next} == t.endpoints;
    assert Apply(put, InsertWrites(t, d)[1]).keys - {t.next + 1} == t.keys;
  }
}
