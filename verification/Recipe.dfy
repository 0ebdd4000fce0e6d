/** The content-addressed dependency recipe (scripts/docker-dependency-recipe.py,
    `recipe`): manifests and lock file with the workspace's own versions erased. */
module Recipe {
  import opened Lockfile
  import opened Manifests
  import opened Options
  import opened PathRequirements
  import opened TextEdits

  /** A member directory with its manifest, as text and as parsed; the version is
      absent unless it is a string of the manifest itself. */
  datatype Manifest = Manifest(dir: string, text: Text, toml: Toml, name: string, version: Option<string>)

  datatype Source = Source(root: Text, rootToml: Toml, members: seq<Manifest>, lock: Text)

  /** The manifest of a member directory, as written. */
  datatype File = File(dir: string, text: Text)

  datatype Files = Files(root: Text, manifests: seq<File>, lock: Text)

  // ---- members ----

  /** Some component between slashes is `..`. */
  predicate NamesParent(dir: string) {
    exists i, j :: 0 <= i <= j <= |dir| && IsComponent(dir, i, j) && dir[i..j] == ".."
  }

  predicate IsComponent(dir: string, i: nat, j: nat)
    requires i <= j <= |dir|
  {
    && (i == 0 || dir[i - 1] == '/') && (j == |dir| || dir[j] == '/')
    && '/' !in dir[i..j]
  }

  predicate IsExplicit(dir: string) {
    && !(dir != "" && dir[0] == '/') && !NamesParent(dir)
    && (forall c :: c in dir ==> c !in {'*', '?', '[', ']'})
  }

  predicate HasName(packages: seq<Package>, name: string) {
    exists p :: p in packages && p.name == name
  }

  datatype Collected = Collected(packages: seq<Package>, manifests: seq<File>)

  function AddMember(before: Collected, m: Manifest): Result<Collected, Error> {
    if !IsExplicit(m.dir) then Err(NotExplicit(m.dir))
    else if !PathsOk(m.toml) then Err(Error.VersionedPath)
    else if m.version.None? || HasName(before.packages, m.name) then Err(NotUnique)
    else match Normalized(m.text)
      case Err(e) => Err(e)
      case Ok(text) => Ok(Collected(before.packages + [Package(m.name, m.version.value)], before.manifests + [File(m.dir, text)]))
  }

  function Members(ms: seq<Manifest>): Result<Collected, Error> {
    if ms == [] then Ok(Collected([], []))
    else match Members(ms[..|ms| - 1])
      case Err(e) => Err(e)
      case Ok(before) => AddMember(before, ms[|ms| - 1])
  }

  // ---- the lock file ----

  datatype Locked = Locked(blocks: seq<Text>, found: set<string>)

  predicate IsEntry(block: Text) {
    block != [] && OpensBlock(block[0])
  }

  function LocalName(block: Text): set<string> {
    if IsLocal(block) && Value(block, "name").Some? then {Value(block, "name").value} else {}
  }

  function AddBlock(before: Locked, block: Text, members: seq<Package>): Result<Locked, Error> {
    if !IsEntry(block) then Ok(Locked(before.blocks + [block], before.found))
    else match EraseBlock(block, members)
      case Err(e) => Err(e)
      case Ok(erased) => Ok(Locked(before.blocks + [erased], before.found + LocalName(block)))
  }

  function Blocks(blocks: seq<Text>, members: seq<Package>): Result<Locked, Error> {
    if blocks == [] then Ok(Locked([], {}))
    else match Blocks(blocks[..|blocks| - 1], members)
      case Err(e) => Err(e)
      case Ok(before) => AddBlock(before, blocks[|blocks| - 1], members)
  }

  function Lock(lock: Text, members: seq<Package>): Result<Text, Error> {
    match Blocks(Split(lock, OpensBlock), members)
    case Err(e) => Err(e)
    case Ok(locked) =>
      if forall p :: p in members ==> p.name in locked.found then Ok(Join(locked.blocks)) else Err(MissingFromLock)
  }

  function RecipeOf(s: Source): Result<Files, Error> {
    if !PathsOk(s.rootToml) then Err(Error.VersionedPath)
    else match Members(s.members)
      case Err(e) => Err(e)
      case Ok(c) =>
        match Lock(s.lock, c.packages)
        case Err(e) => Err(e)
        case Ok(lock) => Ok(Files(s.root, c.manifests, lock))
  }

  // ---- the program ----

  method CollectMembers(ms: seq<Manifest>) returns (result: Result<Collected, Error>)
    ensures result == Members(ms)
  {
    var packages: seq<Package>, manifests: seq<File> := [], [];
    for i := 0 to |ms|
      invariant Members(ms[..i]) == Ok(Collected(packages, manifests))
    {
      var m := ms[i];
      MembersStep(ms, i);
      if !IsExplicit(m.dir) {
        return Err(NotExplicit(m.dir));
      }
      if !PathsOk(m.toml) {
        return Err(Error.VersionedPath);
      }
      if m.version.None? || HasName(packages, m.name) {
        return Err(NotUnique);
      }
      var text := NormalizePackage(m.text);
      if text.Err? {
        return Err(text.error);
      }
      packages := packages + [Package(m.name, m.version.value)];
      manifests := manifests + [File(m.dir, text.value)];
    }
    assert ms[..|ms|] == ms;
    result := Ok(Collected(packages, manifests));
  }

  lemma {:induction false} MembersStep(ms: seq<Manifest>, i: nat)
    requires i < |ms|
    ensures match Members(ms[..i])
      case Err(e) => Members(ms) == Err(e)
      case Ok(before) => AddMember(before, ms[i]) == Members(ms[..i + 1])
    ensures Members(ms[..i + 1]).Err? ==> Members(ms) == Members(ms[..i + 1])
    decreases |ms|
  {
    assert ms[..i + 1][..i] == ms[..i];
    if i + 1 == |ms| {
      assert ms[..i + 1] == ms;
    } else {
      var before := ms[..|ms| - 1];
      MembersStep(before, i);
      assert before[..i] == ms[..i] && before[..i + 1] == ms[..i + 1];
    }
  }

  /** `block.replace` for one member, and for all of them in turn. */
  method EraseEdgesIn(block: Text, members: seq<Package>) returns (erased: Text)
    ensures erased == EraseAll(block, members)
  {
    erased := block;
    for j := 0 to |members|
      invariant erased == EraseAll(block, members[..j])
    {
      assert members[..j + 1][..j] == members[..j];
      erased := seq(|erased|, k requires 0 <= k < |erased| => EraseEdge(erased[k], members[j]));
    }
    assert members[..|members|] == members;
  }

  method RewriteBlock(block: Text, members: seq<Package>) returns (result: Result<Text, Error>, local: set<string>)
    ensures result == EraseBlock(block, members)
    ensures result.Ok? ==> local == LocalName(block)
  {
    local := {};
    var name := Value(block, "name");
    if name.None? {
      return Err(LockUnreadable), local;
    }
    var edited := block;
    if Value(block, "source").None? {
      var version := Value(block, "version");
      if version.None? {
        return Err(LockUnreadable), local;
      }
      if Package(name.value, version.value) !in members {
        return Err(LockMismatch(name.value)), local;
      }
      local := {name.value};
      var i := Find(block, "version");
      edited := block[i := ZeroVersion(block[i])];
    }
    var erased := EraseEdgesIn(edited, members);
    result := Ok(erased);
  }

  method RewriteLock(lock: Text, members: seq<Package>) returns (result: Result<Text, Error>)
    ensures result == Lock(lock, members)
  {
    var blocks := Split(lock, OpensBlock);
    var found: set<string> := {};
    ghost var original, done := blocks, [];
    for index := 0 to |blocks|
      invariant |done| == index <= |original| == |blocks| && blocks == done + original[index..]
      invariant Blocks(original[..index], members) == Ok(Locked(done, found))
    {
      var block := blocks[index];
      BlocksStep(original, index, members);
      if IsEntry(block) {
        var erased, local := RewriteBlock(block, members);
        if erased.Err? {
          return Err(erased.error);
        }
        found := found + local;
        blocks := blocks[index := erased.value];
      }
      Overwritten(done, original, index, blocks);
      done := done + [blocks[index]];
    }
    assert original[..|original|] == original && blocks == done;
    if exists p :: p in members && p.name !in found {
      return Err(MissingFromLock);
    }
    result := Ok(Join(blocks));
  }

  lemma Overwritten(done: seq<Text>, original: seq<Text>, index: nat, blocks: seq<Text>)
    requires |done| == index < |original| == |blocks|
    requires blocks == (done + original[index..])[index := blocks[index]]
    ensures blocks == (done + [blocks[index]]) + original[index + 1..]
  {
  }

  lemma {:induction false} BlocksStep(blocks: seq<Text>, i: nat, members: seq<Package>)
    requires i < |blocks|
    ensures match Blocks(blocks[..i], members)
      case Err(e) => Blocks(blocks, members) == Err(e)
      case Ok(before) => AddBlock(before, blocks[i], members) == Blocks(blocks[..i + 1], members)
    ensures Blocks(blocks[..i + 1], members).Err? ==> Blocks(blocks, members) == Blocks(blocks[..i + 1], members)
    decreases |blocks|
  {
    assert blocks[..i + 1][..i] == blocks[..i];
    if i + 1 == |blocks| {
      assert blocks[..i + 1] == blocks;
    } else {
      var before := blocks[..|blocks| - 1];
      BlocksStep(before, i, members);
      assert before[..i] == blocks[..i] && before[..i + 1] == blocks[..i + 1];
    }
  }

  /** The whole program, over texts instead of files. */
  method MakeRecipe(s: Source) returns (result: Result<Files, Error>)
    ensures result == RecipeOf(s)
  {
    if !PathsOk(s.rootToml) {
      return Err(Error.VersionedPath);
    }
    var collected := CollectMembers(s.members);
    if collected.Err? {
      return Err(collected.error);
    }
    var lock := RewriteLock(s.lock, collected.value.packages);
    if lock.Err? {
      return Err(lock.error);
    }
    result := Ok(Files(s.root, collected.value.manifests, lock.value));
  }
}
