/** When a token, a connection or a node binding is copied, and into what, said in the fields
    of the source rows and of the three tables (backend/src/db.rs, `migrate_provider_tokens`,
    `migrate_service_connections`, `migrate_node_service_bindings`). */
module CopyEffects {
  import opened Options
  import opened UserTables
  import opened Copies
  import opened Bindings
  import Decimals
  import Slugs

  // ---- conditions on the tables ----

  /** Neither a key nor a service comes from the row. */
  ghost predicate KeyLeft(t: Tables, source: string, id: Id) {
    exists i :: i in t.keys && t.keys[i].source == Some(source) && t.keys[i].sourceId == Some(id)
  }

  ghost predicate ServiceLeft(t: Tables, source: string, id: Id) {
    exists i :: i in t.services && t.services[i].source == Some(source) && t.services[i].sourceId == Some(id)
  }

  ghost predicate Serving(t: Tables, i: Id, user: Id, c: Id) {
    i in t.services && t.services[i].active && t.services[i].user == user && t.services[i].catalog == Some(c)
  }

  ghost predicate HasService(t: Tables, user: Id, c: Id) {
    exists i :: Serving(t, i, user, c)
  }

  ghost predicate NameInUse(t: Tables, user: Id, name: string) {
    exists i :: i in t.services && t.services[i].active && t.services[i].user == user && t.services[i].slug == name
  }

  /** The first name of `base`, `base-2` .. `base-100` that no active service of the user has. */
  ghost predicate IsFreeName(t: Tables, user: Id, base: string, slug: string) {
    exists n: nat :: 1 <= n <= 100 && IsNthFree(t, user, base, slug, n)
  }

  ghost predicate IsNthFree(t: Tables, user: Id, base: string, slug: string, n: nat) {
    && slug == (if n == 1 then base else base + "-" + Decimals.Print(n))
    && !NameInUse(t, user, slug)
    && (n > 1 ==> NameInUse(t, user, base))
    && forall m: nat :: 2 <= m < n ==> NameInUse(t, user, base + "-" + Decimals.Print(m))
  }

  lemma NamesInUse(t: Tables, user: Id, name: string)
    ensures name in ActiveSlugs(t, user) <==> NameInUse(t, user, name)
  {
  }

  lemma ResolvedExactly(t: Tables, user: Id, base: string, slug: string)
    ensures ResolveSlug(t, user, base) == Some(slug) <==> IsFreeName(t, user, base, slug)
  {
    var used := ActiveSlugs(t, user);
    Slugs.FilteredQueryAgrees(base, used);
    Slugs.FirstFreeIsSoundAndMinimal(base, used, slug);
    forall name
      ensures name in used <==> NameInUse(t, user, name)
    {
      NamesInUse(t, user, name);
    }
    if ResolveSlug(t, user, base) == Some(slug) {
      var n :| Slugs.IsFirstFree(base, used, n) && slug == Slugs.Candidate(base, n);
      FirstFreeIsNth(t, user, base, slug, n);
      assert IsNthFree(t, user, base, slug, n);
    }
    if IsFreeName(t, user, base, slug) {
      var n: nat :| 1 <= n <= 100 && IsNthFree(t, user, base, slug, n);
      FirstFreeIsNth(t, user, base, slug, n);
      assert Slugs.IsFirstFree(base, used, n);
    }
  }

  lemma FirstFreeIsNth(t: Tables, user: Id, base: string, slug: string, n: nat)
    requires 1 <= n <= 100 && forall name :: name in ActiveSlugs(t, user) <==> NameInUse(t, user, name)
    ensures IsNthFree(t, user, base, slug, n) <==>
            Slugs.IsFirstFree(base, ActiveSlugs(t, user), n) && slug == Slugs.Candidate(base, n)
  {
    assert Slugs.Candidate(base, 1) == base;
    assert forall m: nat :: m >= 2 ==> Slugs.Candidate(base, m) == base + "-" + Decimals.Print(m);
  }

  /** The tables with one more triple: the service points at the endpoint and the key. */
  function WithTriple(
      t: Tables, user: Id, url: string, catalog: Option<Id>, slug: string, secret: Option<Secret>,
      node: Option<Id>, priority: int, source: string, id: Id): Tables {
    var n := t.next;
    Tables(
      t.endpoints[n := Endpoint(user, url, catalog)],
      t.keys[n + 1 := ApiKey(user, secret, Some(source), Some(id))],
      t.services[n + 2 := Service(user, slug, n, Some(n + 1), catalog, true, node, priority, Some(source), Some(id))],
      n + 3)
  }

  lemma InsertIsTriple(t: Tables, d: Draft)
    ensures Insert(t, d) ==
      WithTriple(t, d.user, d.url, d.catalog, d.slug, d.secret, d.node, d.priority, d.source, d.sourceId)
  {
  }

  /** The transaction of a copy, for any draft: it inserts the triple exactly when no key and
      no service comes from the source row, the user has no active service for the entry and
      the name is free; otherwise it changes nothing. */
  lemma TransactionExactly(t: Tables, d: Draft)
    ensures var free :=
        && !KeyLeft(t, d.source, d.sourceId) && !ServiceLeft(t, d.source, d.sourceId)
        && (d.catalog != None ==> !HasService(t, d.user, d.catalog.value)) && !NameInUse(t, d.user, d.slug);
      Commit(t, d) == if !free then t
        else WithTriple(t, d.user, d.url, d.catalog, d.slug, d.secret, d.node, d.priority, d.source, d.sourceId)
  {
    NamesInUse(t, d.user, d.slug);
    if d.catalog != None {
      ServedExactly(t, d.user, d.catalog.value);
    }
    InsertIsTriple(t, d);
  }

  // ---- tokens ----

  ghost predicate IsGoogleProvider(src: Sources, provider: Id) {
    provider in src.providerSlugs && src.providerSlugs[provider] == "google"
  }

  /** An active catalog entry of the provider; of Google, only the original one. */
  ghost predicate Suits(src: Sources, provider: Id, c: Id) {
    && c in src.catalog && src.catalog[c].active && src.catalog[c].provider == Some(provider)
    && (IsGoogleProvider(src, provider) ==> src.catalog[c].slug == "api-google")
  }

  /** The oldest suitable entry, or none when there is none. */
  ghost predicate IsTarget(src: Sources, provider: Id, target: Option<Id>) {
    match target
    case None => forall c :: !Suits(src, provider, c)
    case Some(c) => Suits(src, provider, c) && forall d :: Suits(src, provider, d) ==> c <= d
  }

  lemma TargetExactly(src: Sources, provider: Id, target: Option<Id>)
    ensures TargetEntry(src, provider) == target <==> IsTarget(src, provider, target)
  {
    assert forall c :: c in TargetEntries(src, provider) <==> Suits(src, provider, c);
  }

  /** The entry is one of the newer Google products, which have tokens of their own. */
  ghost predicate IsProduct(slug: string) {
    || slug == "api-google-workspace" || slug == "api-google-calendar" || slug == "api-google-drive"
    || slug == "api-google-gmail" || slug == "api-google-docs" || slug == "api-google-sheets" || slug == "api-google-slides"
  }

  /** Status, provider, app credentials and users let the token be copied. */
  ghost predicate TokenEligible(src: Sources, token: Token, target: Option<Id>) {
    && token.status != "revoked" && token.status != "failed" && token.status != "refresh_failed"
    && IsTarget(src, token.provider, target)
    && (IsGoogleProvider(src, token.provider) ==> target != None)
    && (target != None ==> !IsProduct(src.catalog[target.value].slug))
    && (token.appOwner != None ==> (token.appOwner.value, token.provider) in src.appCredentials)
    && token.user !in src.erased && (token.appOwner != None ==> token.appOwner.value !in src.erased)
  }

  ghost function TokenBase(src: Sources, token: Token, target: Option<Id>): string
    requires target != None ==> target.value in src.catalog
  {
    if target != None then src.catalog[target.value].slug
    else if token.provider in src.providerSlugs then src.providerSlugs[token.provider]
    else "provider-" + Decimals.Print(token.provider)
  }

  ghost function TokenEndpoint(src: Sources, token: Token, target: Option<Id>): string
    requires target != None ==> target.value in src.catalog
  {
    if token.gateway != None && token.gateway.value != "" then token.gateway.value
    else if target != None then src.catalog[target.value].baseUrl
    else "https://placeholder.invalid"
  }

  /** The token is copied to that entry under that name. */
  ghost predicate TokenGoesTo(src: Sources, t: Tables, id: Id, target: Option<Id>, slug: string)
    requires id in src.tokens
  {
    var token := src.tokens[id];
    && TokenEligible(src, token, target)
    && !KeyLeft(t, "migration_provider_token", id) && !ServiceLeft(t, "migration_provider_token", id)
    && (target != None ==> !HasService(t, token.user, target.value))
    && IsFreeName(t, token.user, TokenBase(src, token, target), slug)
  }

  lemma ServedExactly(t: Tables, user: Id, c: Id)
    ensures Siblings(t, user, c) != {} <==> HasService(t, user, c)
    ensures forall i :: i in Siblings(t, user, c) <==> Serving(t, i, user, c)
  {
    if HasService(t, user, c) {
      var i :| Serving(t, i, user, c);
      assert i in Siblings(t, user, c);
    } else {
      forall i | i in Siblings(t, user, c)
        ensures false
      {
        assert Serving(t, i, user, c);
      }
    }
  }

  lemma IneligibleExactly(src: Sources, token: Token, target: Option<Id>)
    requires IsTarget(src, token.provider, target)
    ensures TokenEligible(src, token, target) <==> !TokenIneligible(src, token) && TokenAdmitted(src, token)
  {
    TargetExactly(src, token.provider, target);
  }

  lemma DraftGoesTo(src: Sources, t: Tables, id: Id, target: Option<Id>, slug: string)
    requires id in src.tokens && IsTarget(src, src.tokens[id].provider, target)
    ensures TokenGoesTo(src, t, id, target, slug) <==>
      && TokenAdmitted(src, src.tokens[id])
      && DraftToken(src, t, id) == Some(Draft(src.tokens[id].user, TokenEndpoint(src, src.tokens[id], target), target,
           slug, src.tokens[id].secret, None, 0, "migration_provider_token", id))
  {
    var token := src.tokens[id];
    TargetExactly(src, token.provider, target);
    IneligibleExactly(src, token, target);
    if target.Some? {
      ServedExactly(t, token.user, target.value);
    }
    ResolvedExactly(t, token.user, TokenBase(src, token, target), slug);
  }

  /** For every token and all tables: it is copied if and only if there are an entry and a name
      for it, and then into one triple with the endpoint of its gateway or its entry. */
  lemma TokenCopiedExactly(src: Sources, t: Tables, id: Id)
    requires id in src.tokens
    ensures forall target, slug :: TokenGoesTo(src, t, id, target, slug) ==>
      CopyToken(src, t, id) == WithTriple(t, src.tokens[id].user, TokenEndpoint(src, src.tokens[id], target), target, slug,
        src.tokens[id].secret, None, 0, "migration_provider_token", id)
    ensures (forall target, slug :: !TokenGoesTo(src, t, id, target, slug)) ==> CopyToken(src, t, id) == t
  {
    DraftsCommit(src, t, id);
    forall target, slug | TokenGoesTo(src, t, id, target, slug)
      ensures CopyToken(src, t, id) == WithTriple(t, src.tokens[id].user, TokenEndpoint(src, src.tokens[id], target), target,
        slug, src.tokens[id].secret, None, 0, "migration_provider_token", id)
    {
      DraftGoesTo(src, t, id, target, slug);
      InsertIsTriple(t, DraftToken(src, t, id).value);
    }
    if DraftToken(src, t, id).Some? && TokenAdmitted(src, src.tokens[id]) {
      DraftIsOfTarget(src, t, id);
      TargetExactly(src, src.tokens[id].provider, TargetEntry(src, src.tokens[id].provider));
      DraftGoesTo(src, t, id, TargetEntry(src, src.tokens[id].provider), DraftToken(src, t, id).value.slug);
    }
  }

  lemma DraftIsOfTarget(src: Sources, t: Tables, id: Id)
    requires id in src.tokens && DraftToken(src, t, id).Some?
    ensures var target, d := TargetEntry(src, src.tokens[id].provider), DraftToken(src, t, id).value;
      d == Draft(src.tokens[id].user, TokenEndpoint(src, src.tokens[id], target), target,
        d.slug, src.tokens[id].secret, None, 0, "migration_provider_token", id)
  {
  }

  // ---- connections ----

  ghost predicate ConnectionGoesTo(src: Sources, t: Tables, id: Id, slug: string)
    requires id in src.connections
  {
    var conn := src.connections[id];
    && conn.user !in src.erased && conn.service in src.catalog
    && !KeyLeft(t, "migration_connection", id) && !ServiceLeft(t, "migration_connection", id)
    && !HasService(t, conn.user, conn.service)
    && IsFreeName(t, conn.user, src.catalog[conn.service].slug, slug)
  }

  /** The same for connections: one triple for the entry that the connection names. */
  lemma ConnectionCopiedExactly(src: Sources, t: Tables, id: Id)
    requires id in src.connections
    ensures forall slug :: ConnectionGoesTo(src, t, id, slug) ==>
      var conn := src.connections[id];
      CopyConnection(src, t, id) == WithTriple(t, conn.user, src.catalog[conn.service].baseUrl, Some(conn.service), slug,
        conn.secret, None, 0, "migration_connection", id)
    ensures (forall slug :: !ConnectionGoesTo(src, t, id, slug)) ==> CopyConnection(src, t, id) == t
  {
    var conn := src.connections[id];
    DraftsCommit(src, t, id);
    ServedExactly(t, conn.user, conn.service);
    if conn.service in src.catalog {
      forall slug
        ensures ResolveSlug(t, conn.user, src.catalog[conn.service].slug) == Some(slug) <==>
                IsFreeName(t, conn.user, src.catalog[conn.service].slug, slug)
      {
        ResolvedExactly(t, conn.user, src.catalog[conn.service].slug, slug);
      }
    }
    if DraftConnection(src, t, id).Some? {
      InsertIsTriple(t, DraftConnection(src, t, id).value);
      assert conn.user !in src.erased ==> ConnectionGoesTo(src, t, id, DraftConnection(src, t, id).value.slug);
    }
  }

  // ---- bindings ----

  /** No service of the pair, an entry for it, a free name, and no key from an earlier copy. */
  ghost predicate BindingNeeds(src: Sources, t: Tables, id: Id, slug: string)
    requires id in src.bindings
  {
    var b := src.bindings[id];
    && !HasService(t, b.user, b.service) && !KeyLeft(t, "migration_node_binding", id)
    && b.service in src.catalog && IsFreeName(t, b.user, src.catalog[b.service].slug, slug)
  }

  /** The URL of a node-managed endpoint: of an SSH service its address, if it has one. */
  ghost function BindingEndpoint(entry: CatalogEntry): string {
    if entry.serviceType == "ssh" then (if entry.sshAddress != None then "ssh://" + entry.sshAddress.value else "")
    else entry.baseUrl
  }

  /** For every binding and all tables. The oldest active service of the pair takes node and
      priority. Without one, a triple is inserted when the binding needs it, unless a service
      from it is left, which ends the phase. Otherwise nothing happens. */
  lemma BindingCopiedExactly(src: Sources, t: Tables, id: Id)
    requires id in src.bindings
    ensures var b := src.bindings[id];
      forall i :: Serving(t, i, b.user, b.service) && (forall j :: Serving(t, j, b.user, b.service) ==> i <= j) ==>
        CopyBinding(src, t, id) ==
        Outcome(t.(services := t.services[i := t.services[i].(node := Some(b.node), priority := b.priority)]), true)
    ensures var b := src.bindings[id];
      forall slug :: BindingNeeds(src, t, id, slug) ==>
        CopyBinding(src, t, id) ==
        if ServiceLeft(t, "migration_node_binding", id) then Outcome(t, false)
        else Outcome(WithTriple(t, b.user, BindingEndpoint(src.catalog[b.service]), Some(b.service), slug, None,
               Some(b.node), b.priority, "migration_node_binding", id), true)
    ensures var b := src.bindings[id];
      !HasService(t, b.user, b.service) && (forall slug :: !BindingNeeds(src, t, id, slug)) ==>
        CopyBinding(src, t, id) == Outcome(t, true)
  {
    var b := src.bindings[id];
    ServedExactly(t, b.user, b.service);
    if b.service in src.catalog {
      forall slug
        ensures ResolveSlug(t, b.user, src.catalog[b.service].slug) == Some(slug) <==>
                IsFreeName(t, b.user, src.catalog[b.service].slug, slug)
      {
        ResolvedExactly(t, b.user, src.catalog[b.service].slug, slug);
      }
    }
    if DraftBinding(src, t, id).Some? {
      InsertIsTriple(t, DraftBinding(src, t, id).value);
      assert !HasService(t, b.user, b.service) ==> BindingNeeds(src, t, id, DraftBinding(src, t, id).value.slug);
    }
  }
}
