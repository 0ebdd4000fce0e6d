/** The bulk migration of the SSH auth mode, and the function that reads the mode
    of one legacy document (backend/src/db.rs, `migrate_legacy_ssh_auth_mode`,
    `legacy_ssh_auth_mode_from_downstream_doc`). */
module SshModes {
  import opened Options

  type Id = nat

  datatype Mode = Cert | NodeKey | ProxyOnly

  /** A document field: absent, of an unexpected type, or a value. */
  datatype Field<+T> = Missing | Odd | Is(value: T)

  datatype SshConfig = SshConfig(mode: Field<string>, certificate: Field<bool>)

  /** A downstream service, as far as SSH is concerned. */
  type Downstream = Field<SshConfig>

  /** `addressable` rows have a text identifier. */
  datatype UserService = UserService(
    addressable: bool, serviceType: Field<string>, mode: Field<string>, stale: Field<bool>, catalog: Field<Id>)

  function Name(m: Mode): string {
    match m
    case Cert => "cert"
    case NodeKey => "node_key"
    case ProxyOnly => "proxy_only"
  }

  function ParseMode(s: string): Option<Mode> {
    if s == "cert" then Some(Cert)
    else if s == "node_key" then Some(NodeKey)
    else if s == "proxy_only" then Some(ProxyOnly)
    else None
  }

  lemma NameThenParse(m: Mode)
    ensures ParseMode(Name(m)) == Some(m)
  {
    assert Name(Cert)[0] == 'c' && Name(NodeKey)[0] == 'n' && Name(ProxyOnly)[0] == 'p';
  }

  /** The mode of one document in its legacy form. */
  function LegacyMode(d: Downstream): Option<Mode> {
    match d
    case Missing => None
    case Odd => None
    case Is(config) =>
      match config.mode
      case Is(s) => ParseMode(s)
      case Missing => Some(if config.certificate == Is(true) then Cert else ProxyOnly)
      case Odd => Some(if config.certificate == Is(true) then Cert else ProxyOnly)
  }

  // ---- specification: row by row, from the original rows ----

  predicate LacksMode(d: Downstream) {
    d.Is? && d.value.mode == Missing
  }

  function Migrated(d: Downstream): Downstream {
    if LacksMode(d) then Is(d.value.(mode := Is(Name(LegacyMode(d).value)))) else d
  }

  function CatalogMode(downstream: map<Id, Downstream>, catalog: Field<Id>): Mode {
    if catalog.Is? && catalog.value in downstream && LegacyMode(downstream[catalog.value]).Some?
    then LegacyMode(downstream[catalog.value]).value
    else ProxyOnly
  }

  predicate IsSsh(s: UserService) {
    s.serviceType == Is("ssh")
  }

  predicate SelectedSsh(s: UserService) {
    IsSsh(s) && (s.mode == Missing || s.stale == Missing)
  }

  function MigratedService(downstream: map<Id, Downstream>, s: UserService): UserService {
    if !IsSsh(s) then
      s.(mode := if s.mode == Missing then Is(Name(ProxyOnly)) else s.mode,
         stale := if s.stale == Missing then Is(false) else s.stale)
    else if SelectedSsh(s) && s.addressable then
      s.(mode := Is(Name(CatalogMode(downstream, s.catalog))),
         stale := Is(if s.stale.Is? then s.stale.value else false))
    else s
  }

  function MigratedAll(downstream: map<Id, Downstream>): map<Id, Downstream> {
    map i | i in downstream :: Migrated(downstream[i])
  }

  function MigratedServices(downstream: map<Id, Downstream>, services: map<Id, UserService>): map<Id, UserService> {
    map i | i in services :: MigratedService(downstream, services[i])
  }

  // ---- the bulk updates ----

  function AfterCertPass(d: Downstream): Downstream {
    if LacksMode(d) && d.value.certificate == Is(true) then Is(d.value.(mode := Is(Name(Cert)))) else d
  }

  function AfterProxyPass(d: Downstream): Downstream {
    if LacksMode(d) then Is(d.value.(mode := Is(Name(ProxyOnly)))) else d
  }

  class Collections {
    var downstream: map<Id, Downstream>
    var services: map<Id, UserService>

    constructor (downstream: map<Id, Downstream>, services: map<Id, UserService>)
      ensures this.downstream == downstream && this.services == services
    {
      this.downstream, this.services := downstream, services;
    }

    /** `update_many` of the rows whose certificate flag is set. */
    method SetCertModes()
      modifies this`downstream
      ensures downstream == map i | i in old(downstream) :: AfterCertPass(old(downstream)[i])
    {
      downstream := map i | i in downstream :: AfterCertPass(downstream[i]);
    }

    /** `update_many` of the remaining rows. A configuration that is not a document
        also lacks the field, but the field cannot be set in it: the update fails. */
    method SetProxyModes() returns (ok: bool)
      modifies this`downstream
      ensures ok <==> forall i :: i in old(downstream) ==> old(downstream)[i] != Odd
      ensures downstream.Keys == old(downstream).Keys
      ensures ok ==> forall i :: i in downstream ==> downstream[i] == AfterProxyPass(old(downstream)[i])
      ensures forall i :: i in downstream ==> downstream[i] in {old(downstream)[i], AfterProxyPass(old(downstream)[i])}
    {
      var before := downstream;
      var rest := before.Keys;
      while rest != {}
        invariant rest <= before.Keys == downstream.Keys
        invariant forall i :: i in rest ==> downstream[i] == before[i]
        invariant forall i :: i in before.Keys - rest ==> before[i] != Odd && downstream[i] == AfterProxyPass(before[i])
      {
        var i :| i in rest;
        if downstream[i] == Odd {
          return false;
        }
        if LacksMode(downstream[i]) {
          downstream := downstream[i := Is(downstream[i].value.(mode := Is(Name(ProxyOnly))))];
        }
        rest := rest - {i};
      }
      ok := true;
    }

    method SetNonSshDefaults()
      modifies this`services
      ensures services.Keys == old(services).Keys
      ensures forall i :: i in services ==>
                services[i] == if IsSsh(old(services)[i]) then old(services)[i] else MigratedService(downstream, old(services)[i])
    {
      services := map i | i in services ::
        if !IsSsh(services[i]) && services[i].mode == Missing
        then services[i].(mode := Is(Name(ProxyOnly))) else services[i];
      services := map i | i in services ::
        if !IsSsh(services[i]) && services[i].stale == Missing then services[i].(stale := Is(false)) else services[i];
    }

    /** The cursor over the selected ssh services, row by row. */
    method SetSshModes()
      modifies this`services
      ensures services.Keys == old(services).Keys
      ensures forall i :: i in services ==>
                services[i] == if IsSsh(old(services)[i]) then MigratedService(downstream, old(services)[i]) else old(services)[i]
    {
      var before := services;
      var rows := set i | i in services && SelectedSsh(services[i]);
      while rows != {}
        invariant services.Keys == before.Keys && rows <= before.Keys
        invariant forall i :: i in rows ==> SelectedSsh(before[i]) && services[i] == before[i]
        invariant forall i :: i in before && i !in rows ==>
                    services[i] == if IsSsh(before[i]) then MigratedService(downstream, before[i]) else before[i]
      {
        var i :| i in rows;
        var row := services[i];
        if row.addressable {
          var mode := ProxyOnly;
          if row.catalog.Is? && row.catalog.value in downstream {
            var legacy := LegacyMode(downstream[row.catalog.value]);
            mode := if legacy.Some? then legacy.value else ProxyOnly;
          }
          var stale := if row.stale.Is? then row.stale.value else false;
          services := services[i := row.(mode := Is(Name(mode)), stale := Is(stale))];
        }
        rows := rows - {i};
      }
    }

    /** The five passes. Every downstream row without a mode ends with the mode of
        its original form, and every selected ssh service with the mode of its
        original catalog row, although the catalog rows were rewritten first. */
    method MigrateLegacySshAuthMode() returns (ok: bool)
      modifies this
      ensures ok <==> forall i :: i in old(downstream) ==> old(downstream)[i] != Odd
      ensures ok ==> downstream == MigratedAll(old(downstream))
      ensures ok ==> services == MigratedServices(old(downstream), old(services))
      ensures !ok ==> services == old(services)
      ensures downstream.Keys == old(downstream).Keys
      ensures forall i :: i in downstream ==> downstream[i] in {old(downstream)[i], Migrated(old(downstream)[i])}
    {
      SetCertModes();
      ghost var marked := downstream;
      forall i | i in marked
        ensures AfterProxyPass(marked[i]) == Migrated(old(downstream)[i])
        ensures marked[i] in {old(downstream)[i], Migrated(old(downstream)[i])}
        ensures marked[i] == Odd <==> old(downstream)[i] == Odd
      {
        assert marked[i] == AfterCertPass(old(downstream)[i]);
      }
      ok := SetProxyModes();
      if !ok {
        return;
      }
      assert downstream == MigratedAll(old(downstream));
      SetNonSshDefaults();
      SetSshModes();
      forall s: UserService
        ensures MigratedService(downstream, s) == MigratedService(old(downstream), s)
      {
        MigratedCatalogAgrees(old(downstream), s.catalog);
      }
    }
  }

  // ---- properties of the specification ----

  lemma MigrationKeepsLegacyMode(d: Downstream)
    ensures LegacyMode(Migrated(d)) == LegacyMode(d)
    ensures !LacksMode(Migrated(d))
    ensures Migrated(Migrated(d)) == Migrated(d)
  {
    if LacksMode(d) {
      NameThenParse(LegacyMode(d).value);
    }
  }

  lemma MigratedCatalogAgrees(downstream: map<Id, Downstream>, catalog: Field<Id>)
    ensures CatalogMode(MigratedAll(downstream), catalog) == CatalogMode(downstream, catalog)
  {
    if catalog.Is? && catalog.value in downstream {
      MigrationKeepsLegacyMode(downstream[catalog.value]);
    }
  }

  /** A second run changes no row. */
  lemma SecondRunChangesNothing(downstream: map<Id, Downstream>, services: map<Id, UserService>)
    ensures MigratedAll(MigratedAll(downstream)) == MigratedAll(downstream)
    ensures MigratedServices(MigratedAll(downstream), MigratedServices(downstream, services))
         == MigratedServices(downstream, services)
  {
    forall i | i in downstream
      ensures Migrated(Migrated(downstream[i])) == Migrated(downstream[i])
    {
      MigrationKeepsLegacyMode(downstream[i]);
    }
  }

  /** An ssh service that names its mode keeps it exactly when the pass does not
      select the row, or the catalog happens to give the same mode: a row that only
      lacks the stale flag has its explicit mode overwritten. */
  lemma ExplicitModeIsKept(downstream: map<Id, Downstream>, s: UserService)
    requires IsSsh(s) && s.mode.Is?
    ensures MigratedService(downstream, s).mode == s.mode <==>
            s.stale != Missing || !s.addressable || s.mode.value == Name(CatalogMode(downstream, s.catalog))
  {
  }

  // ---- the same in texts ----

  /** The mode that a catalog row gives to the user services of its entry. */
  ghost function CatalogText(downstream: map<Id, Downstream>, catalog: Field<Id>): string {
    match catalog
    case Is(c) =>
      if c !in downstream then "proxy_only"
      else (match downstream[c]
            case Is(SshConfig(Is(text), _)) => if text == "cert" || text == "node_key" then text else "proxy_only"
            case Is(SshConfig(_, certificate)) => if certificate == Is(true) then "cert" else "proxy_only"
            case _ => "proxy_only")
    case _ => "proxy_only"
  }

  lemma ParsedNames(text: string)
    ensures ParseMode(text).Some? ==> Name(ParseMode(text).value) == text
    ensures ParseMode(text).Some? <==> text == "cert" || text == "node_key" || text == "proxy_only"
  {
  }

  lemma CatalogTextIs(downstream: map<Id, Downstream>, catalog: Field<Id>)
    ensures CatalogText(downstream, catalog) == Name(CatalogMode(downstream, catalog))
  {
    if catalog.Is? && catalog.value in downstream && downstream[catalog.value].Is? {
      var config := downstream[catalog.value].value;
      if config.mode.Is? {
        ParsedNames(config.mode.value);
      }
    }
  }

  /** What the migration writes, row by row, in texts: a configuration without mode gets the
      mode of its certificate flag; a user service that is no SSH service gets defaults for
      what it lacks; an SSH service that lacks mode or flag gets the mode of its catalog row
      as it was before, and keeps a flag it has. */
  lemma MigratedInTexts(downstream: map<Id, Downstream>, s: UserService)
    ensures forall i :: i in downstream ==>
      MigratedAll(downstream)[i] ==
      match downstream[i]
      case Is(SshConfig(Missing, certificate)) =>
        Is(SshConfig(Is(if certificate == Is(true) then "cert" else "proxy_only"), certificate))
      case _ => downstream[i]
    ensures var m := MigratedService(downstream, s);
      && m.addressable == s.addressable && m.serviceType == s.serviceType && m.catalog == s.catalog
      && (s.serviceType != Is("ssh") ==>
            && m.mode == (if s.mode == Missing then Is("proxy_only") else s.mode)
            && m.stale == (if s.stale == Missing then Is(false) else s.stale))
      && (s.serviceType == Is("ssh") && s.addressable && (s.mode == Missing || s.stale == Missing) ==>
            && m.mode == Is(CatalogText(downstream, s.catalog))
            && m.stale == (if s.stale == Is(true) then Is(true) else Is(false)))
      && (s.serviceType == Is("ssh") && !(s.addressable && (s.mode == Missing || s.stale == Missing)) ==> m == s)
  {
    CatalogTextIs(downstream, s.catalog);
  }
}
