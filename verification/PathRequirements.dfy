/** The check that no dependency is given by path and version at once
    (scripts/docker-dependency-recipe.py, `check_path_requirements`). */
module PathRequirements {
  import opened Options

  /** A parsed TOML document. */
  datatype Toml = Table(entries: seq<Entry>) | Array(items: seq<Toml>) | Leaf

  datatype Entry = Entry(key: string, value: Toml)

  predicate HasKey(entries: seq<Entry>, key: string) {
    exists i :: 0 <= i < |entries| && entries[i].key == key
  }

  predicate Versioned(t: Toml) {
    t.Table? && HasKey(t.entries, "path") && HasKey(t.entries, "version")
  }

  predicate PathsOk(t: Toml) {
    match t
    case Table(es) => !Versioned(t) && forall i :: 0 <= i < |es| ==> PathsOk(es[i].value)
    case Array(items) => forall i :: 0 <= i < |items| ==> PathsOk(items[i])
    case Leaf => true
  }

  /** The value reached by a path of positions. */
  function At(t: Toml, path: seq<nat>): Option<Toml>
    decreases path
  {
    if path == [] then Some(t)
    else match t
      case Table(es) => if path[0] < |es| then At(es[path[0]].value, path[1..]) else None
      case Array(items) => if path[0] < |items| then At(items[path[0]], path[1..]) else None
      case Leaf => None
  }

  /** A table with an entry of each key. */
  predicate HasBothKeys(t: Toml) {
    && t.Table?
    && (exists i :: 0 <= i < |t.entries| && t.entries[i].key == "path")
    && (exists i :: 0 <= i < |t.entries| && t.entries[i].key == "version")
  }

  /** The recursive check passes exactly when no table at any depth has both keys. */
  lemma PathsOkIsExact(t: Toml)
    ensures PathsOk(t) <==> forall path :: At(t, path).Some? ==> !Versioned(At(t, path).value)
    ensures PathsOk(t) <==> forall path :: At(t, path).Some? ==> !HasBothKeys(At(t, path).value)
  {
    forall u: Toml
      ensures Versioned(u) <==> HasBothKeys(u)
    {
    }
    if PathsOk(t) {
      forall path | At(t, path).Some?
        ensures !Versioned(At(t, path).value)
      {
        NothingVersioned(t, path);
      }
    } else {
      var path := VersionedPath(t);
      assert At(t, path).Some?;
    }
  }

  lemma {:induction false} NothingVersioned(t: Toml, path: seq<nat>)
    requires PathsOk(t) && At(t, path).Some?
    ensures !Versioned(At(t, path).value)
    decreases path
  {
    if path != [] {
      match t
      case Table(es) => NothingVersioned(es[path[0]].value, path[1..]);
      case Array(items) => NothingVersioned(items[path[0]], path[1..]);
    }
  }

  lemma {:induction false} VersionedPath(t: Toml) returns (path: seq<nat>)
    requires !PathsOk(t)
    ensures At(t, path).Some? && Versioned(At(t, path).value)
    decreases t
  {
    path := [];
    if !Versioned(t) {
      match t
      case Table(es) =>
        var i :| 0 <= i < |es| && !PathsOk(es[i].value);
        var inner := VersionedPath(es[i].value);
        path := [i] + inner;
      case Array(items) =>
        var i :| 0 <= i < |items| && !PathsOk(items[i]);
        var inner := VersionedPath(items[i]);
        path := [i] + inner;
    }
  }
}
