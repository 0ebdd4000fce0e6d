/** Several replicas boot at once and copy tokens and connections side by side:
    reads and transactions of all of them interleave, while users go on editing the
    source rows. Each transaction first increments a fence in the exact source
    documents it read (backend/src/db.rs, `migrate_provider_tokens`,
    `migrate_service_connections`). */
module Replicas {
  import opened Options
  import opened UserTables
  import opened Copies

  type ReplicaId = nat

  /** A source document that carries a copy fence. */
  datatype Document = TokenDoc(id: Id) | ConnectionDoc(id: Id) | EntryDoc(id: Id) | AppDoc(owner: Id, provider: Id)

  /** The source documents a replica read, with the fences they had. */
  datatype Snapshot =
    | TokenRead(id: Id, token: Token, fence: nat, app: Option<(Secret, nat)>)
    | ConnectionRead(id: Id, connection: Connection, fence: nat, entry: CatalogEntry, entryFence: nat)

  datatype Pending = Pending(snapshot: Snapshot, draft: Draft)

  /** `log` lists the drafts committed so far. */
  datatype World = World(
    src: Sources, fences: map<Document, nat>, tables: Tables, pending: map<ReplicaId, Pending>, log: seq<Draft>)

  datatype Step =
    | ReadToken(replica: ReplicaId, id: Id)
    | ReadConnection(replica: ReplicaId, id: Id)
    | CommitCopy(replica: ReplicaId)
    | Crash(replica: ReplicaId)
    | EditSources(src: Sources, fences: map<Document, nat>)

  function Fence(w: World, d: Document): nat {
    if d in w.fences then w.fences[d] else 0
  }

  function SnapshotToken(w: World, id: Id): Snapshot
    requires id in w.src.tokens
  {
    var token := w.src.tokens[id];
    TokenRead(id, token, Fence(w, TokenDoc(id)),
      if token.appOwner.Some? && (token.appOwner.value, token.provider) in w.src.appCredentials
      then Some((w.src.appCredentials[(token.appOwner.value, token.provider)],
                 Fence(w, AppDoc(token.appOwner.value, token.provider))))
      else None)
  }

  function SnapshotConnection(w: World, id: Id): Option<Snapshot>
    requires id in w.src.connections
  {
    var conn := w.src.connections[id];
    if conn.service !in w.src.catalog then None
    else Some(ConnectionRead(id, conn, Fence(w, ConnectionDoc(id)),
      w.src.catalog[conn.service], Fence(w, EntryDoc(conn.service))))
  }

  /** The exact-document filters of the transaction still match. */
  predicate SourceUnchanged(w: World, s: Snapshot) {
    match s
    case TokenRead(id, _, _, _) => id in w.src.tokens && SnapshotToken(w, id) == s
    case ConnectionRead(id, _, _, _, _) => id in w.src.connections && SnapshotConnection(w, id) == Some(s)
  }

  predicate Admitted(w: World, s: Snapshot) {
    match s
    case TokenRead(_, token, _, _) => TokenAdmitted(w.src, token)
    case ConnectionRead(_, conn, _, _, _) => conn.user !in w.src.erased
  }

  function Documents(s: Snapshot): set<Document> {
    match s
    case TokenRead(id, token, _, app) =>
      {TokenDoc(id)} + if app.Some? && token.appOwner.Some? then {AppDoc(token.appOwner.value, token.provider)} else {}
    case ConnectionRead(id, conn, _, _, _) => {ConnectionDoc(id), EntryDoc(conn.service)}
  }

  function Bump(w: World, ds: set<Document>): map<Document, nat> {
    map d | d in w.fences.Keys + ds :: Fence(w, d) + if d in ds then 1 else 0
  }

  /** The transaction. A stale source or a guard that no longer holds commits
      without inserting; a refused user or a unique index aborts. */
  function CommitPending(w: World, p: Pending): World {
    if !SourceUnchanged(w, p.snapshot) || !Admitted(w, p.snapshot) then w
    else if !Guards(w.tables, p.draft) then w.(fences := Bump(w, Documents(p.snapshot)))
    else if BreaksIndex(w.tables, p.draft) then w
    else w.(fences := Bump(w, Documents(p.snapshot)), tables := Insert(w.tables, p.draft), log := w.log + [p.draft])
  }

  function Do(w: World, step: Step): World {
    match step
    case ReadToken(r, id) =>
      if id !in w.src.tokens then w
      else (match DraftToken(w.src, w.tables, id)
            case None => w.(pending := w.pending - {r})
            case Some(d) => w.(pending := w.pending[r := Pending(SnapshotToken(w, id), d)]))
    case ReadConnection(r, id) =>
      if id !in w.src.connections || !w.src.connections[id].active then w
      else (match DraftConnection(w.src, w.tables, id)
            case None => w.(pending := w.pending - {r})
            case Some(d) => w.(pending := w.pending[r := Pending(SnapshotConnection(w, id).value, d)]))
    case CommitCopy(r) =>
      if r !in w.pending then w
      else CommitPending(w, w.pending[r]).(pending := w.pending - {r})
    case Crash(r) => w.(pending := w.pending - {r})
    case EditSources(src, fences) => w.(src := src, fences := fences)
  }

  function Run(w: World, steps: seq<Step>): World
    decreases steps
  {
    if steps == [] then w else Run(Do(w, steps[0]), steps[1..])
  }

  lemma {:induction false} RunOn(w: World, a: seq<Step>, b: seq<Step>)
    ensures Run(w, a + b) == Run(Run(w, a), b) && Run(w, []) == w
    decreases a
  {
    if a == [] {
      assert a + b == b;
    } else {
      assert (a + b)[0] == a[0] && (a + b)[1..] == a[1..] + b;
      RunOn(Do(w, a[0]), a[1..], b);
    }
  }

  /** A run is its steps, one after the other. */
  lemma OneMoreStep(w: World, steps: seq<Step>, step: Step)
    ensures Run(w, steps + [step]) == Do(Run(w, steps), step) && Run(w, []) == w
  {
    RunOn(w, steps, [step]);
    assert Run(Do(Run(w, steps), step), []) == Do(Run(w, steps), step);
  }

  // ---- one replica alone takes the sequential step ----

  lemma TokenCopyAlone(w: World, r: ReplicaId, id: Id)
    requires r !in w.pending && id in w.src.tokens
    ensures Do(Do(w, ReadToken(r, id)), CommitCopy(r)).tables == CopyToken(w.src, w.tables, id)
  {
    DraftsCommit(w.src, w.tables, id);
  }

  lemma ConnectionCopyAlone(w: World, r: ReplicaId, id: Id)
    requires r !in w.pending && id in w.src.connections && w.src.connections[id].active
    ensures Do(Do(w, ReadConnection(r, id)), CommitCopy(r)).tables == CopyConnection(w.src, w.tables, id)
  {
    DraftsCommit(w.src, w.tables, id);
  }

  // ---- what every run keeps ----

  function InsertAll(t: Tables, log: seq<Draft>): Tables
    decreases log
  {
    if log == [] then t else Insert(InsertAll(t, log[..|log| - 1]), log[|log| - 1])
  }

  ghost predicate DistinctOrigins(t: Tables) {
    && (forall i, j :: i in t.keys && j in t.keys && i != j && t.keys[i].sourceId.Some? && t.keys[i].source.Some? ==>
          t.keys[i].source != t.keys[j].source || t.keys[i].sourceId != t.keys[j].sourceId)
    && (forall i, j :: i in t.services && j in t.services && i != j
                       && t.services[i].sourceId.Some? && t.services[i].source.Some? ==>
          t.services[i].source != t.services[j].source || t.services[i].sourceId != t.services[j].sourceId)
  }

  ghost predicate DistinctSlugs(t: Tables) {
    forall i, j :: i in t.services && j in t.services && i != j && t.services[i].active && t.services[j].active ==>
      t.services[i].user != t.services[j].user || t.services[i].slug != t.services[j].slug
  }

  /** A pair keeps the services it had, or has exactly one where it had none. */
  ghost predicate PairGrowsToOne(t: Tables, u: Tables, user: Id, c: Id) {
    || Siblings(u, user, c) == Siblings(t, user, c)
    || (Siblings(t, user, c) == {} && |Siblings(u, user, c)| == 1)
  }

  ghost predicate PairsGrowToOne(t: Tables, u: Tables) {
    forall user: Id, c: Id :: PairGrowsToOne(t, u, user, c)
  }

  ghost predicate DistinctSources(log: seq<Draft>) {
    forall k, l :: 0 <= k < l < |log| ==> log[k].source != log[l].source || log[k].sourceId != log[l].sourceId
  }

  /** The tables are the initial ones plus whole triples, one per source row, none
      for a source row that had a key or service before. */
  ghost predicate Safe(t: Tables, u: Tables, log: seq<Draft>) {
    && Supplied(u) && Grows(t, u)
    && u == InsertAll(t, log)
    && OncePerSource(t, u, log)
    && (DistinctOrigins(t) ==> DistinctOrigins(u))
    && (DistinctSlugs(t) ==> DistinctSlugs(u))
    && PairsGrowToOne(t, u)
  }

  ghost predicate OncePerSource(t: Tables, u: Tables, log: seq<Draft>) {
    && DistinctSources(log)
    && (forall d :: d in log ==> KeyFrom(u, d.source, d.sourceId))
    && (forall d :: d in log ==> !KeyFrom(t, d.source, d.sourceId) && !ServiceFrom(t, d.source, d.sourceId))
  }

  lemma InsertKeepsDistinct(t: Tables, d: Draft)
    requires Supplied(t) && !BreaksIndex(t, d)
    ensures DistinctOrigins(t) ==> DistinctOrigins(Insert(t, d))
    ensures DistinctSlugs(t) ==> DistinctSlugs(Insert(t, d))
  {
    forall i | i in t.services && t.services[i].active && t.services[i].user == d.user
      ensures t.services[i].slug != d.slug
    {
      assert t.services[i].slug in ActiveSlugs(t, d.user);
    }
  }

  lemma InsertFillsOnePair(t: Tables, d: Draft)
    requires Supplied(t) && Guards(t, d)
    ensures PairsGrowToOne(t, Insert(t, d))
  {
    forall user: Id, c: Id
      ensures PairGrowsToOne(t, Insert(t, d), user, c)
    {
      var before, after := Siblings(t, user, c), Siblings(Insert(t, d), user, c);
      if d.user == user && d.catalog == Some(c) {
        assert after == {t.next + 2};
      } else {
        assert after == before;
      }
    }
  }

  lemma PairsGrowTransitively(t: Tables, u: Tables, v: Tables)
    requires PairsGrowToOne(t, u) && PairsGrowToOne(u, v)
    ensures PairsGrowToOne(t, v)
  {
    forall user: Id, c: Id
      ensures PairGrowsToOne(t, v, user, c)
    {
      assert PairGrowsToOne(t, u, user, c) && PairGrowsToOne(u, v, user, c);
    }
  }

  lemma OneMoreSource(t: Tables, u: Tables, log: seq<Draft>, d: Draft)
    requires Supplied(u) && Grows(t, u) && OncePerSource(t, u, log) && Guards(u, d)
    ensures OncePerSource(t, Insert(u, d), log + [d])
  {
    InsertGrows(u, d);
    GrowthKeepsGuards(u, Insert(u, d));
    GrowthKeepsGuards(t, u);
    forall k | 0 <= k < |log|
      ensures log[k].source != d.source || log[k].sourceId != d.sourceId
    {
      assert log[k] in log;
    }
  }

  lemma InsertKeepsSafe(t: Tables, u: Tables, log: seq<Draft>, d: Draft)
    requires Safe(t, u, log) && Guards(u, d) && !BreaksIndex(u, d)
    ensures Safe(t, Insert(u, d), log + [d])
  {
    InsertGrows(u, d);
    GrowsTransitive(t, u, Insert(u, d));
    OneMoreSource(t, u, log, d);
    InsertKeepsDistinct(u, d);
    InsertFillsOnePair(u, d);
    PairsGrowTransitively(t, u, Insert(u, d));
    assert (log + [d])[..|log|] == log;
  }

  /** A step leaves the tables alone, or inserts one draft whose guards hold. */
  lemma StepInsertsAtMostOne(w: World, step: Step)
    ensures var v := Do(w, step);
            || (v.tables == w.tables && v.log == w.log)
            || exists d :: Guards(w.tables, d) && !BreaksIndex(w.tables, d)
                           && v.tables == Insert(w.tables, d) && v.log == w.log + [d]
  {
    if step.CommitCopy? && step.replica in w.pending {
      var d := w.pending[step.replica].draft;
      assert Guards(w.tables, d) || !Guards(w.tables, d);
    }
  }

  /** Replica safety, for every interleaving of reads, transactions, crashes and
      source edits. */
  lemma {:induction false} EveryRunIsSafe(t: Tables, w: World, steps: seq<Step>)
    requires Safe(t, w.tables, w.log)
    ensures Safe(t, Run(w, steps).tables, Run(w, steps).log)
    decreases steps
  {
    if steps != [] {
      var v := Do(w, steps[0]);
      StepInsertsAtMostOne(w, steps[0]);
      if v.tables != w.tables || v.log != w.log {
        var d :| Guards(w.tables, d) && !BreaksIndex(w.tables, d)
                 && v.tables == Insert(w.tables, d) && v.log == w.log + [d];
        InsertKeepsSafe(t, w.tables, w.log, d);
      }
      EveryRunIsSafe(t, v, steps[1..]);
    }
  }

  lemma StartIsSafe(t: Tables)
    requires Supplied(t)
    ensures Safe(t, t, [])
  {
  }

  // ---- what a commit copies is what the source holds at that moment ----

  predicate DraftOf(p: Pending) {
    match p.snapshot
    case TokenRead(id, token, _, _) =>
      p.draft.source == TOKEN_SOURCE && p.draft.sourceId == id && p.draft.user == token.user && p.draft.secret == token.secret
    case ConnectionRead(id, conn, _, entry, _) =>
      && p.draft.source == CONNECTION_SOURCE && p.draft.sourceId == id && p.draft.user == conn.user
      && p.draft.secret == conn.secret && p.draft.catalog == Some(conn.service) && p.draft.url == entry.baseUrl
      && conn.active
  }

  ghost predicate DraftsMatchSnapshots(w: World) {
    forall r :: r in w.pending ==> DraftOf(w.pending[r])
  }

  lemma {:induction false} DraftsMatchInEveryRun(w: World, steps: seq<Step>)
    requires DraftsMatchSnapshots(w)
    ensures DraftsMatchSnapshots(Run(w, steps))
    decreases steps
  {
    if steps != [] {
      DraftsMatchInEveryRun(Do(w, steps[0]), steps[1..]);
    }
  }

  ghost predicate CopiesCurrent(src: Sources, d: Draft) {
    || (d.source == TOKEN_SOURCE && d.sourceId in src.tokens
        && d.user == src.tokens[d.sourceId].user && d.secret == src.tokens[d.sourceId].secret)
    || (d.source == CONNECTION_SOURCE && d.sourceId in src.connections
        && d.user == src.connections[d.sourceId].user && d.secret == src.connections[d.sourceId].secret
        && src.connections[d.sourceId].active && src.connections[d.sourceId].service in src.catalog
        && d.url == src.catalog[src.connections[d.sourceId].service].baseUrl)
  }

  /** The source documents are as the replica read them, fences included. */
  ghost predicate StillAsRead(w: World, s: Snapshot) {
    match s
    case TokenRead(id, token, fence, app) =>
      && id in w.src.tokens && w.src.tokens[id] == token && Fence(w, TokenDoc(id)) == fence
      && (app.None? <==> token.appOwner.None? || (token.appOwner.value, token.provider) !in w.src.appCredentials)
      && (app.Some? ==>
            && w.src.appCredentials[(token.appOwner.value, token.provider)] == app.value.0
            && Fence(w, AppDoc(token.appOwner.value, token.provider)) == app.value.1)
    case ConnectionRead(id, conn, fence, entry, entryFence) =>
      && id in w.src.connections && w.src.connections[id] == conn && Fence(w, ConnectionDoc(id)) == fence
      && conn.service in w.src.catalog && w.src.catalog[conn.service] == entry
      && Fence(w, EntryDoc(conn.service)) == entryFence
  }

  /** The users a copy needs: the owner of the row and, for a token, the owner of the app. */
  ghost predicate UsersRemain(w: World, s: Snapshot) {
    match s
    case TokenRead(_, token, _, _) =>
      token.user !in w.src.erased && (token.appOwner.Some? ==> token.appOwner.value !in w.src.erased)
    case ConnectionRead(_, conn, _, _, _) => conn.user !in w.src.erased
  }

  /** Whether the replica read the document. */
  predicate HasRead(s: Snapshot, d: Document) {
    match d
    case TokenDoc(id) => s.TokenRead? && s.id == id
    case AppDoc(owner, provider) =>
      s.TokenRead? && s.app.Some? && s.token.appOwner == Some(owner) && s.token.provider == provider
    case ConnectionDoc(id) => s.ConnectionRead? && s.id == id
    case EntryDoc(id) => s.ConnectionRead? && s.connection.service == id
  }

  lemma StillAsReadExactly(w: World, s: Snapshot)
    ensures StillAsRead(w, s) <==> SourceUnchanged(w, s)
  {
  }

  /** What a transaction does, in any world: with the documents as they were read and the users
      there, it inserts the triple when the guards and the unique indexes let it, and then, or
      when a guard stops it, moves the fence of every document it read by one, of a token its
      own and that of its app, of a connection its own and that of its entry. In every other
      case it changes nothing. */
  lemma CommitExactly(w: World, r: ReplicaId, d: Document)
    requires r in w.pending
    ensures var p, v := w.pending[r], Do(w, CommitCopy(r));
      var goes := StillAsRead(w, p.snapshot) && UsersRemain(w, p.snapshot);
      if goes && !Guards(w.tables, p.draft) then
        v.tables == w.tables && v.log == w.log && Fence(v, d) == Fence(w, d) + (if HasRead(p.snapshot, d) then 1 else 0)
      else if goes && !BreaksIndex(w.tables, p.draft) then
        && v.tables == Insert(w.tables, p.draft) && v.log == w.log + [p.draft]
        && Fence(v, d) == Fence(w, d) + (if HasRead(p.snapshot, d) then 1 else 0)
      else v == w.(pending := w.pending - {r})
  {
    StillAsReadExactly(w, w.pending[r].snapshot);
  }

  /** A commit increments the fences of the documents it read: a read that shares one of
      them and still matched does not match any more. */
  lemma SharedDocumentFencesOut(w: World, s: Snapshot, q: Snapshot, t: Tables, log: seq<Draft>)
    requires SourceUnchanged(w, q) && Documents(s) * Documents(q) != {}
    ensures forall pending :: !SourceUnchanged(w.(fences := Bump(w, Documents(s)), tables := t, log := log, pending := pending), q)
  {
    var d :| d in Documents(s) * Documents(q);
    forall pending
      ensures Fence(w.(fences := Bump(w, Documents(s)), tables := t, log := log, pending := pending), d) == Fence(w, d) + 1
    {
    }
  }

  /** However long ago a replica read its source row, a commit that inserts copies
      the row as it is now; and it fences out every other replica that read one of the
      same documents and could still have committed. */
  lemma CommitCopiesCurrentRow(w: World, steps: seq<Step>, r: ReplicaId)
    requires w.pending == map[]
    ensures var before := Run(w, steps);
            var after := Do(before, CommitCopy(r));
            after.tables != before.tables ==>
              && |after.log| == |before.log| + 1
              && CopiesCurrent(after.src, after.log[|before.log|])
              && r in before.pending
              && forall q :: q in after.pending && SourceUnchanged(before, after.pending[q].snapshot)
                             && Documents(before.pending[r].snapshot) * Documents(after.pending[q].snapshot) != {} ==>
                   !SourceUnchanged(after, after.pending[q].snapshot)
  {
    DraftsMatchInEveryRun(w, steps);
    var before := Run(w, steps);
    var after := Do(before, CommitCopy(r));
    if after.tables != before.tables {
      var p := before.pending[r].snapshot;
      forall q | q in after.pending && SourceUnchanged(before, after.pending[q].snapshot)
                 && Documents(p) * Documents(after.pending[q].snapshot) != {}
        ensures !SourceUnchanged(after, after.pending[q].snapshot)
      {
        SharedDocumentFencesOut(before, p, after.pending[q].snapshot, after.tables, after.log);
      }
    }
  }

  /** In particular every other replica that read the same source rows. */
  lemma SameReadIsFencedOut(w: World, r: ReplicaId, q: ReplicaId)
    requires r in w.pending && q in w.pending && q != r && w.pending[q].snapshot == w.pending[r].snapshot
    requires Do(w, CommitCopy(r)).tables != w.tables
    ensures !SourceUnchanged(Do(w, CommitCopy(r)), w.pending[q].snapshot)
  {
    var p, after := w.pending[r].snapshot, Do(w, CommitCopy(r));
    match p
    case TokenRead(id, _, _, _) => assert TokenDoc(id) in Documents(p) * Documents(p);
    case ConnectionRead(id, _, _, _, _) => assert ConnectionDoc(id) in Documents(p) * Documents(p);
    SharedDocumentFencesOut(w, p, p, after.tables, after.log);
  }
}
