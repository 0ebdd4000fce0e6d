/** The second and third phase of the start-up migration: provider tokens and
    service connections are copied into endpoint + key + service triples
    (backend/src/db.rs, `migrate_provider_tokens`, `migrate_service_connections`).

    A copy reads a source row and the tables, drafts the triple, and then commits
    it in one transaction that checks the guards again. */
module Copies {
  import opened Options
  import opened UserTables
  import Decimals

  datatype Token = Token(
    user: Id, provider: Id, status: string, gateway: Option<string>, appOwner: Option<Id>, secret: Option<Secret>)

  datatype Connection = Connection(user: Id, service: Id, active: bool, secret: Option<Secret>)

  datatype Binding = Binding(user: Id, service: Id, node: Id, priority: int, active: bool)

  datatype CatalogEntry = CatalogEntry(
    slug: string, baseUrl: string, active: bool, provider: Option<Id>, serviceType: string, sshAddress: Option<string>)

  /** Everything the migration reads and does not write. `erased` holds the users
      for whom credential changes are refused. */
  datatype Sources = Sources(
    tokens: map<Id, Token>, connections: map<Id, Connection>, bindings: map<Id, Binding>,
    providerSlugs: map<Id, string>, catalog: map<Id, CatalogEntry>,
    appCredentials: map<(Id, Id), Secret>, erased: set<Id>)

  const TOKEN_SOURCE := "migration_provider_token"
  const CONNECTION_SOURCE := "migration_connection"
  const BINDING_SOURCE := "migration_node_binding"

  const PRODUCT_SLUGS: set<string> := {
    "api-google-workspace", "api-google-calendar", "api-google-drive", "api-google-gmail",
    "api-google-docs", "api-google-sheets", "api-google-slides" }

  // ---- the commit both phases share ----

  /** What the transaction checks again before it inserts. */
  predicate Guards(t: Tables, d: Draft) {
    && !KeyFrom(t, d.source, d.sourceId)
    && !ServiceFrom(t, d.source, d.sourceId)
    && (d.catalog.Some? ==> Siblings(t, d.user, d.catalog.value) == {})
  }

  /** The transaction: all three rows or none; a unique-index violation aborts. */
  function Commit(t: Tables, d: Draft): Tables {
    if Guards(t, d) && !BreaksIndex(t, d) then Insert(t, d) else t
  }

  // ---- provider tokens ----

  predicate IsGoogle(src: Sources, provider: Id) {
    provider in src.providerSlugs && src.providerSlugs[provider] == "google"
  }

  function TargetEntries(src: Sources, provider: Id): set<Id> {
    set c | c in src.catalog && src.catalog[c].active && src.catalog[c].provider == Some(provider)
            && (IsGoogle(src, provider) ==> src.catalog[c].slug == "api-google")
  }

  function TargetEntry(src: Sources, provider: Id): (c: Option<Id>)
    ensures c.Some? ==> c.value in src.catalog
  {
    if TargetEntries(src, provider) == {} then None else Some(Least(TargetEntries(src, provider)))
  }

  predicate NoTarget(src: Sources, provider: Id) {
    var c := TargetEntry(src, provider);
    (IsGoogle(src, provider) && c.None?) || (c.Some? && src.catalog[c.value].slug in PRODUCT_SLUGS)
  }

  function BaseSlug(src: Sources, provider: Id): string {
    match TargetEntry(src, provider)
    case Some(c) => src.catalog[c].slug
    case None =>
      if provider in src.providerSlugs then src.providerSlugs[provider] else "provider-" + Decimals.Print(provider)
  }

  function TokenUrl(src: Sources, token: Token): string {
    if token.gateway.Some? && token.gateway.value != "" then token.gateway.value
    else match TargetEntry(src, token.provider)
      case Some(c) => src.catalog[c].baseUrl
      case None => "https://placeholder.invalid"
  }

  /** Why a token is passed over whatever the tables hold. */
  predicate TokenIneligible(src: Sources, token: Token) {
    || token.status in {"revoked", "failed", "refresh_failed"}
    || NoTarget(src, token.provider)
    || (token.appOwner.Some? && (token.appOwner.value, token.provider) !in src.appCredentials)
  }

  /** The read part of a token copy. */
  function DraftToken(src: Sources, t: Tables, id: Id): Option<Draft>
    requires id in src.tokens
  {
    var token := src.tokens[id];
    var target := TargetEntry(src, token.provider);
    if TokenIneligible(src, token) then None
    else if KeyFrom(t, TOKEN_SOURCE, id) || ServiceFrom(t, TOKEN_SOURCE, id) then None
    else if target.Some? && Siblings(t, token.user, target.value) != {} then None
    else match ResolveSlug(t, token.user, BaseSlug(src, token.provider))
      case None => None
      case Some(slug) =>
        Some(Draft(token.user, TokenUrl(src, token), target, slug, token.secret, None, 0, TOKEN_SOURCE, id))
  }

  predicate TokenAdmitted(src: Sources, token: Token) {
    token.user !in src.erased && (token.appOwner.Some? ==> token.appOwner.value !in src.erased)
  }

  function CopyToken(src: Sources, t: Tables, id: Id): Tables
    requires id in src.tokens
  {
    match DraftToken(src, t, id)
    case None => t
    case Some(d) => if TokenAdmitted(src, src.tokens[id]) then Commit(t, d) else t
  }

  // ---- service connections ----

  /** The read part of a connection copy. */
  function DraftConnection(src: Sources, t: Tables, id: Id): Option<Draft>
    requires id in src.connections
  {
    var conn := src.connections[id];
    if KeyFrom(t, CONNECTION_SOURCE, id) || ServiceFrom(t, CONNECTION_SOURCE, id) then None
    else if conn.service !in src.catalog then None
    else if Siblings(t, conn.user, conn.service) != {} then None
    else
      var entry := src.catalog[conn.service];
      match ResolveSlug(t, conn.user, entry.slug)
      case None => None
      case Some(slug) =>
        Some(Draft(conn.user, entry.baseUrl, Some(conn.service), slug, conn.secret, None, 0, CONNECTION_SOURCE, id))
  }

  function CopyConnection(src: Sources, t: Tables, id: Id): Tables
    requires id in src.connections
  {
    match DraftConnection(src, t, id)
    case None => t
    case Some(d) => if d.user !in src.erased then Commit(t, d) else t
  }

  // ---- the phases ----

  function CopyTokens(src: Sources, t: Tables, ids: seq<Id>): Tables
    requires forall i :: i in ids ==> i in src.tokens
    decreases ids
  {
    if ids == [] then t else CopyTokens(src, CopyToken(src, t, ids[0]), ids[1..])
  }

  function CopyConnections(src: Sources, t: Tables, ids: seq<Id>): Tables
    requires forall i :: i in ids ==> i in src.connections
    decreases ids
  {
    if ids == [] then t else CopyConnections(src, CopyConnection(src, t, ids[0]), ids[1..])
  }

  // ---- a copy without interference always commits what it drafted ----

  lemma DraftsCommit(src: Sources, t: Tables, id: Id)
    ensures id in src.tokens && DraftToken(src, t, id).Some? ==>
              var d := DraftToken(src, t, id).value; Guards(t, d) && !BreaksIndex(t, d)
    ensures id in src.connections && DraftConnection(src, t, id).Some? ==>
              var d := DraftConnection(src, t, id).value; Guards(t, d) && !BreaksIndex(t, d)
  {
    if id in src.tokens && DraftToken(src, t, id).Some? {
      ResolvedSlugIsFree(t, src.tokens[id].user, BaseSlug(src, src.tokens[id].provider));
    }
    if id in src.connections && DraftConnection(src, t, id).Some? {
      ResolvedSlugIsFree(t, src.connections[id].user, src.catalog[src.connections[id].service].slug);
    }
  }

  // ---- a copy that has nothing to do never has anything to do again ----

  lemma TokenCopyGrows(src: Sources, t: Tables, id: Id)
    requires Supplied(t) && id in src.tokens
    ensures Supplied(CopyToken(src, t, id)) && Grows(t, CopyToken(src, t, id))
    ensures CopyToken(src, CopyToken(src, t, id), id) == CopyToken(src, t, id)
  {
    if CopyToken(src, t, id) != t {
      InsertGrows(t, DraftToken(src, t, id).value);
    }
  }

  lemma TokenStaysSettled(src: Sources, t: Tables, u: Tables, id: Id)
    requires id in src.tokens && Grows(t, u)
    requires CopyToken(src, t, id) == t
    ensures CopyToken(src, u, id) == u
  {
    DraftsCommit(src, t, id);
    GrowthKeepsGuards(t, u);
  }

  lemma ConnectionCopyGrows(src: Sources, t: Tables, id: Id)
    requires Supplied(t) && id in src.connections
    ensures Supplied(CopyConnection(src, t, id)) && Grows(t, CopyConnection(src, t, id))
    ensures CopyConnection(src, CopyConnection(src, t, id), id) == CopyConnection(src, t, id)
  {
    if CopyConnection(src, t, id) != t {
      InsertGrows(t, DraftConnection(src, t, id).value);
    }
  }

  lemma ConnectionStaysSettled(src: Sources, t: Tables, u: Tables, id: Id)
    requires id in src.connections && Grows(t, u)
    requires CopyConnection(src, t, id) == t
    ensures CopyConnection(src, u, id) == u
  {
    DraftsCommit(src, t, id);
    GrowthKeepsGuards(t, u);
  }

  /** After the token phase every token is settled, in the result and in every
      later growth of it: the phase changes nothing when it runs again. */
  lemma {:induction false} TokenPhaseSettles(src: Sources, t: Tables, ids: seq<Id>)
    requires Supplied(t) && forall i :: i in ids ==> i in src.tokens
    ensures Supplied(CopyTokens(src, t, ids)) && Grows(t, CopyTokens(src, t, ids))
    ensures forall u, i :: Grows(CopyTokens(src, t, ids), u) && i in ids ==> CopyToken(src, u, i) == u
    decreases ids
  {
    if ids != [] {
      var t1 := CopyToken(src, t, ids[0]);
      TokenCopyGrows(src, t, ids[0]);
      TokenPhaseSettles(src, t1, ids[1..]);
      var t2 := CopyTokens(src, t1, ids[1..]);
      forall u, i | Grows(t2, u) && i in ids
        ensures CopyToken(src, u, i) == u
      {
        if i == ids[0] {
          GrowsTransitive(t1, t2, u);
          TokenStaysSettled(src, t1, u, i);
        }
      }
    }
  }

  lemma {:induction false} ConnectionPhaseSettles(src: Sources, t: Tables, ids: seq<Id>)
    requires Supplied(t) && forall i :: i in ids ==> i in src.connections
    ensures Supplied(CopyConnections(src, t, ids)) && Grows(t, CopyConnections(src, t, ids))
    ensures forall u, i :: Grows(CopyConnections(src, t, ids), u) && i in ids ==> CopyConnection(src, u, i) == u
    decreases ids
  {
    if ids != [] {
      var t1 := CopyConnection(src, t, ids[0]);
      ConnectionCopyGrows(src, t, ids[0]);
      ConnectionPhaseSettles(src, t1, ids[1..]);
      var t2 := CopyConnections(src, t1, ids[1..]);
      forall u, i | Grows(t2, u) && i in ids
        ensures CopyConnection(src, u, i) == u
      {
        if i == ids[0] {
          GrowsTransitive(t1, t2, u);
          ConnectionStaysSettled(src, t1, u, i);
        }
      }
    }
  }

  lemma {:induction false} SettledPhasesAreIdle(src: Sources, t: Tables, tokens: seq<Id>, connections: seq<Id>)
    requires forall i :: i in tokens ==> i in src.tokens && CopyToken(src, t, i) == t
    requires forall i :: i in connections ==> i in src.connections && CopyConnection(src, t, i) == t
    ensures CopyTokens(src, t, tokens) == t
    ensures CopyConnections(src, t, connections) == t
    decreases |tokens| + |connections|
  {
    if tokens != [] {
      SettledPhasesAreIdle(src, t, tokens[1..], connections);
    } else if connections != [] {
      SettledPhasesAreIdle(src, t, tokens, connections[1..]);
    }
  }

  // ---- no copy makes work for the cleanup pass ----

  /** A copy with a catalog entry is the only active service of its user for it. */
  lemma CommitAddsFirstSibling(t: Tables, d: Draft)
    requires Supplied(t) && d.catalog.Some? && Guards(t, d)
    ensures Siblings(Insert(t, d), d.user, d.catalog.value) == {t.next + 2}
  {
  }
}
