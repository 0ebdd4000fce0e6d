/** What the recipe promises: a version bump of the workspace does not show in it,
    and a recipe is its own recipe (scripts/docker-dependency-recipe.py). */
module RecipeErasure {
  import opened Lockfile
  import opened Manifests
  import opened Options
  import opened PathRequirements
  import opened Recipe
  import opened TextEdits

  function Packages(ms: seq<Manifest>): (ps: seq<Package>)
    requires forall m :: m in ms ==> m.version.Some?
    ensures |ps| == |ms| && forall i :: 0 <= i < |ms| ==> ps[i] == Package(ms[i].name, ms[i].version.value)
  {
    seq(|ms|, i requires 0 <= i < |ms| => assert ms[i] in ms; Package(ms[i].name, ms[i].version.value))
  }

  // ---- two trees that differ in the versions of their members ----

  /** The same directory, tables and name; the texts differ in the package version. */
  predicate SameMember(m: Manifest, n: Manifest) {
    && m.dir == n.dir && m.name == n.name && (PathsOk(m.toml) <==> PathsOk(n.toml))
    && m.version.Some? && n.version.Some? && DifferInVersion(m.text, n.text)
  }

  predicate IsField(line: Line) {
    Field(line, "name").Some? || Field(line, "version").Some? || Field(line, "source").Some?
  }

  predicate SameNames(a: seq<Package>, b: seq<Package>) {
    |a| == |b| && forall i :: 0 <= i < |a| ==> a[i].name == b[i].name
  }

  predicate EdgeTo(l: Line, m: Line, p: Package, q: Package, pre: string, post: string) {
    && Plain(pre) && Plain(post)
    && l == pre + (InQuotes(Spelled(p)) + post) && m == pre + (InQuotes(Spelled(q)) + post)
  }

  /** The line is common and quotes no member with its version, or it is an edge to the
      same member, qualified with the version of each tree. */
  ghost predicate SameLine(l: Line, m: Line, a: seq<Package>, b: seq<Package>)
    requires SameNames(a, b)
  {
    || (l == m && Untouched(l, a) && Untouched(l, b))
    || (!IsField(l) && !IsField(m) && exists i, pre, post :: 0 <= i < |a| && EdgeTo(l, m, a[i], b[i], pre, post))
  }

  function VersionLine(v: string, post: string): Line {
    "version = " + (InQuotes(v) + post)
  }

  predicate SameVersionLine(l: Line, m: Line, p: Package, q: Package, post: string) {
    post in {"", "\n"} && l == VersionLine(p.version, post) && m == VersionLine(q.version, post)
  }

  /** The blocks agree line by line, and a local entry carries the version of its member
      in each tree. */
  ghost predicate SameBlock(x: Text, y: Text, a: seq<Package>, b: seq<Package>)
    requires SameNames(a, b)
  {
    && |x| == |y| && (x == [] || x[0] == y[0])
    && (forall k :: 0 <= k < |x| ==> SameLine(x[k], y[k], a, b) || IsVersionLine(x, y, k, a, b))
    && (IsEntry(x) && IsLocal(x) ==> exists k :: 0 <= k < |x| && IsVersionLine(x, y, k, a, b))
    && (!IsEntry(x) ==> x == y)
  }

  ghost predicate IsVersionLine(x: Text, y: Text, k: nat, a: seq<Package>, b: seq<Package>)
    requires SameNames(a, b) && k < |x| == |y|
  {
    && IsLocal(x) && Find(x, "version") == Find(y, "version") == k
    && exists i, post :: 0 <= i < |a| && Value(x, "name") == Some(a[i].name) && SameVersionLine(x[k], y[k], a[i], b[i], post)
  }

  // ---- members ----

  predicate HaveVersions(ms: seq<Manifest>) {
    forall m :: m in ms ==> m.version.Some?
  }

  lemma PackagesSnoc(ms: seq<Manifest>)
    requires ms != [] && HaveVersions(ms)
    ensures HaveVersions(ms[..|ms| - 1])
    ensures var m := ms[|ms| - 1]; Packages(ms) == Packages(ms[..|ms| - 1]) + [Package(m.name, m.version.value)]
  {
  }

  lemma SameMemberAdded(before: Collected, later: Collected, m: Manifest, n: Manifest)
    requires SameMember(m, n) && before.manifests == later.manifests
    requires SameNames(before.packages, later.packages)
    requires AddMember(before, m).Ok?
    ensures AddMember(later, n).Ok? && AddMember(later, n).value.manifests == AddMember(before, m).value.manifests
  {
    SameEdit(m.text, n.text);
    SameNamesSeen(before.packages, later.packages, m.name);
  }

  lemma AddedPackage(before: Collected, m: Manifest)
    requires AddMember(before, m).Ok?
    ensures m.version.Some? && AddMember(before, m).value.packages == before.packages + [Package(m.name, m.version.value)]
  {
  }

  lemma {:induction false} MembersArePackages(ms: seq<Manifest>)
    requires Members(ms).Ok?
    ensures HaveVersions(ms) && Members(ms).value.packages == Packages(ms)
  {
    if ms != [] {
      var m, init := ms[|ms| - 1], ms[..|ms| - 1];
      MembersArePackages(init);
      AddedPackage(Members(init).value, m);
      assert ms == init + [m];
      PackagesSnoc(ms);
    }
  }

  lemma {:induction false} SameMembers(ms: seq<Manifest>, ns: seq<Manifest>)
    requires |ms| == |ns| && (forall i :: 0 <= i < |ms| ==> SameMember(ms[i], ns[i])) && Members(ms).Ok?
    ensures Members(ns).Ok? && Members(ns).value.manifests == Members(ms).value.manifests
  {
    if ms != [] {
      var n := |ms| - 1;
      SameMembers(ms[..n], ns[..n]);
      MembersArePackages(ms[..n]);
      MembersArePackages(ns[..n]);
      forall i | 0 <= i < n
        ensures ms[i].name == ns[i].name
      {
        assert SameMember(ms[i], ns[i]);
      }
      SameMemberAdded(Members(ms[..n]).value, Members(ns[..n]).value, ms[n], ns[n]);
    }
  }

  lemma SameNamesSeen(a: seq<Package>, b: seq<Package>, name: string)
    requires SameNames(a, b)
    ensures HasName(a, name) <==> HasName(b, name)
  {
    if HasName(a, name) {
      var i :| 0 <= i < |a| && a[i].name == name;
      assert b[i] in b;
    }
    if HasName(b, name) {
      var i :| 0 <= i < |b| && b[i].name == name;
      assert a[i] in a;
    }
  }

  // ---- blocks ----

  lemma {:induction false} FindAlike(x: Text, y: Text, key: string)
    requires |x| == |y| && forall k :: 0 <= k < |x| ==> Field(x[k], key) == Field(y[k], key)
    ensures Find(x, key) == Find(y, key) && Value(x, key) == Value(y, key)
  {
    if x != [] && Field(x[0], key).None? {
      FindAlike(x[1..], y[1..], key);
    }
  }

  lemma VersionLineFields(v: string, post: string)
    requires SaneText(v) && post in {"", "\n"}
    ensures Field(VersionLine(v, post), "version") == Some(v)
    ensures Field(VersionLine(v, post), "name").None? && Field(VersionLine(v, post), "source").None?
  {
    assert "version" + " = " == "version = ";
    FieldOf("version", v, post);
    assert VersionLine(v, post)[0] == 'v';
  }

  lemma FieldsAlike(x: Text, y: Text, k: nat, a: seq<Package>, b: seq<Package>)
    requires SameNames(a, b) && Sane(a) && Sane(b) && k < |x| == |y|
    requires SameLine(x[k], y[k], a, b) || IsVersionLine(x, y, k, a, b)
    ensures Field(x[k], "name") == Field(y[k], "name") && Field(x[k], "source") == Field(y[k], "source")
  {
    if !SameLine(x[k], y[k], a, b) {
      var i, post :| 0 <= i < |a| && Value(x, "name") == Some(a[i].name) && SameVersionLine(x[k], y[k], a[i], b[i], post);
      assert a[i] in a && b[i] in b;
      VersionLineFields(a[i].version, post);
      VersionLineFields(b[i].version, post);
    }
  }

  lemma HeadsAlike(x: Text, y: Text, a: seq<Package>, b: seq<Package>)
    requires SameNames(a, b) && Sane(a) && Sane(b) && SameBlock(x, y, a, b)
    ensures Value(x, "name") == Value(y, "name") && (IsLocal(x) <==> IsLocal(y)) && (IsEntry(x) <==> IsEntry(y))
    ensures LocalName(x) == LocalName(y)
  {
    forall k | 0 <= k < |x|
      ensures Field(x[k], "name") == Field(y[k], "name") && Field(x[k], "source") == Field(y[k], "source")
    {
      FieldsAlike(x, y, k, a, b);
    }
    FindAlike(x, y, "name");
    FindAlike(x, y, "source");
  }

  lemma ErasedAlike(l: Line, m: Line, a: seq<Package>, b: seq<Package>)
    requires SameNames(a, b) && Sane(a) && Sane(b) && SameLine(l, m, a, b)
    ensures EraseEdges(l, a) == EraseEdges(m, b)
  {
    if l == m && Untouched(l, a) && Untouched(l, b) {
      UntouchedIsKept(l, a);
      UntouchedIsKept(l, b);
    } else {
      var i, pre, post :| 0 <= i < |a| && EdgeTo(l, m, a[i], b[i], pre, post);
      assert a[i] in a && b[i] in b;
      EdgeErased(pre, post, a, a[i]);
      EdgeErased(pre, post, b, b[i]);
    }
  }

  lemma EdgeErased(pre: string, post: string, members: seq<Package>, p: Package)
    requires Sane(members) && p in members && Plain(pre) && Plain(post)
    ensures EraseEdges(pre + (InQuotes(Spelled(p)) + post), members) == pre + (InQuotes(SpelledZero(p)) + post)
  {
    PlainSpelling(members, p);
    NeutralWordMeaning(Spelled(p), members);
    EraseWord(pre, Spelled(p), post, members);
  }

  /** The erased version line is not an edge of anything. */
  lemma ZeroKept(line: Line, members: seq<Package>)
    requires Sane(members)
    ensures EraseEdges(ZeroVersion(line), members) == ZeroVersion(line)
  {
    forall p | p in members
      ensures Spelled(p) != ZERO
    {
      assert Spelled(p)[|p.name|] == ' ';
    }
    NeutralWordMeaning(ZERO, members);
    var post := if line != "" && line[|line| - 1] == '\n' then "\n" else "";
    EraseWord("version = ", ZERO, post, members);
    assert ZeroVersion(line) == "version = " + (InQuotes(ZERO) + post);
  }

  lemma ZeroAlike(v: string, w: string, post: string)
    requires post in {"", "\n"}
    ensures ZeroVersion(VersionLine(v, post)) == ZeroVersion(VersionLine(w, post))
  {
    var l, m := VersionLine(v, post), VersionLine(w, post);
    if post == "\n" {
      assert l[|l| - 1] == '\n' && m[|m| - 1] == '\n';
    } else {
      assert l[|l| - 1] == QUOTE && m[|m| - 1] == QUOTE;
    }
  }

  lemma RegistryBlockErased(x: Text, y: Text, a: seq<Package>, b: seq<Package>)
    requires SameNames(a, b) && Sane(a) && Sane(b) && SameBlock(x, y, a, b) && !IsLocal(x)
    ensures EraseBlock(y, b) == EraseBlock(x, a)
  {
    HeadsAlike(x, y, a, b);
    forall k | 0 <= k < |x|
      ensures EraseAll(x, a)[k] == EraseAll(y, b)[k]
    {
      ErasedAlike(x[k], y[k], a, b);
    }
    assert EraseAll(x, a) == EraseAll(y, b);
  }

  lemma LocalBlockErased(x: Text, y: Text, a: seq<Package>, b: seq<Package>)
    requires SameNames(a, b) && Sane(a) && Sane(b) && SameBlock(x, y, a, b) && IsLocal(x) && IsEntry(x)
    ensures EraseBlock(x, a).Ok? && EraseBlock(y, b) == EraseBlock(x, a)
  {
    HeadsAlike(x, y, a, b);
    var k :| 0 <= k < |x| && IsVersionLine(x, y, k, a, b);
    var i, post :| 0 <= i < |a| && Value(x, "name") == Some(a[i].name) && SameVersionLine(x[k], y[k], a[i], b[i], post);
    assert a[i] in a && b[i] in b;
    VersionLineFields(a[i].version, post);
    VersionLineFields(b[i].version, post);
    assert Package(a[i].name, a[i].version) == a[i] && Package(a[i].name, b[i].version) == b[i];
    ZeroAlike(a[i].version, b[i].version, post);
    LinesErased(x, y, k, a, b);
  }

  lemma LinesErased(x: Text, y: Text, k: nat, a: seq<Package>, b: seq<Package>)
    requires SameNames(a, b) && Sane(a) && Sane(b) && SameBlock(x, y, a, b)
    requires k < |x| && Find(x, "version") == k && ZeroVersion(x[k]) == ZeroVersion(y[k])
    ensures EraseAll(x[k := ZeroVersion(x[k])], a) == EraseAll(y[k := ZeroVersion(y[k])], b)
  {
    var z, w := x[k := ZeroVersion(x[k])], y[k := ZeroVersion(y[k])];
    forall j | 0 <= j < |x|
      ensures EraseAll(z, a)[j] == EraseAll(w, b)[j]
    {
      if j == k {
        ZeroKept(x[k], a);
        ZeroKept(x[k], b);
      } else {
        ErasedAlike(x[j], y[j], a, b);
      }
    }
  }

  lemma {:induction false} SameBlocks(xs: seq<Text>, ys: seq<Text>, a: seq<Package>, b: seq<Package>)
    requires SameNames(a, b) && Sane(a) && Sane(b)
    requires |xs| == |ys| && forall i :: 0 <= i < |xs| ==> SameBlock(xs[i], ys[i], a, b)
    ensures Blocks(ys, b) == Blocks(xs, a)
  {
    if xs != [] {
      var n := |xs| - 1;
      SameBlocks(xs[..n], ys[..n], a, b);
      HeadsAlike(xs[n], ys[n], a, b);
      if IsEntry(xs[n]) {
        if IsLocal(xs[n]) {
          LocalBlockErased(xs[n], ys[n], a, b);
        } else {
          RegistryBlockErased(xs[n], ys[n], a, b);
        }
      }
    }
  }

  // ---- the theorems ----

  /** Two trees of the same workspace, apart from the versions of its members. */
  ghost predicate SameButVersions(s: Source, t: Source)
    requires HaveVersions(s.members) && HaveVersions(t.members)
  {
    var xs, ys := Split(s.lock, OpensBlock), Split(t.lock, OpensBlock);
    var a, b := Packages(s.members), Packages(t.members);
    && s.root == t.root && (PathsOk(s.rootToml) <==> PathsOk(t.rootToml))
    && |s.members| == |t.members| && (forall i :: 0 <= i < |s.members| ==> SameMember(s.members[i], t.members[i]))
    && SameNames(a, b)
    && |xs| == |ys| && (forall i :: 0 <= i < |xs| ==> SameBlock(xs[i], ys[i], a, b))
  }

  /** A version bump of the workspace, made consistently in manifests, lock entries and
      qualified edges, leaves the recipe byte for byte the same. */
  lemma VersionBumpIsErased(s: Source, t: Source)
    requires HaveVersions(s.members) && HaveVersions(t.members) && SameButVersions(s, t)
    requires Sane(Packages(s.members)) && Sane(Packages(t.members))
    requires RecipeOf(s).Ok?
    ensures RecipeOf(t) == RecipeOf(s)
  {
    var a, b := Packages(s.members), Packages(t.members);
    SameMembers(s.members, t.members);
    MembersArePackages(s.members);
    MembersArePackages(t.members);
    SameBlocks(Split(s.lock, OpensBlock), Split(t.lock, OpensBlock), a, b);
    NamesFound(a, b, Blocks(Split(s.lock, OpensBlock), a).value.found);
  }

  lemma NamesFound(a: seq<Package>, b: seq<Package>, found: set<string>)
    requires SameNames(a, b)
    ensures (forall p :: p in a ==> p.name in found) <==> (forall p :: p in b ==> p.name in found)
  {
    if forall p :: p in a ==> p.name in found {
      forall p | p in b
        ensures p.name in found
      {
        var i :| 0 <= i < |b| && b[i] == p;
        assert a[i] in a;
      }
    }
    if forall p :: p in b ==> p.name in found {
      forall p | p in a
        ensures p.name in found
      {
        var i :| 0 <= i < |a| && a[i] == p;
        assert b[i] in b;
      }
    }
  }

  // ---- which lock files are accepted, and what stays byte-exact ----

  /** The entry is readable, and a local one names a member with its version. */
  predicate Matches(block: Text, members: seq<Package>) {
    var name, version := Value(block, "name"), Value(block, "version");
    name.Some? && (IsLocal(block) ==> version.Some? && Package(name.value, version.value) in members)
  }

  predicate HasLocal(blocks: seq<Text>, name: string) {
    exists i :: 0 <= i < |blocks| && IsEntry(blocks[i]) && name in LocalName(blocks[i])
  }

  ghost predicate AllMatch(blocks: seq<Text>, members: seq<Package>) {
    forall i :: 0 <= i < |blocks| && IsEntry(blocks[i]) ==> Matches(blocks[i], members)
  }

  lemma {:induction false} BlocksAccepted(blocks: seq<Text>, members: seq<Package>)
    ensures Blocks(blocks, members).Ok? <==> AllMatch(blocks, members)
  {
    if blocks != [] {
      var init, last := blocks[..|blocks| - 1], blocks[|blocks| - 1];
      BlocksAccepted(init, members);
      OneMoreMatch(init, last, members);
      assert blocks == init + [last];
      if Blocks(init, members).Ok? {
        BlockAccepted(Blocks(init, members).value, last, members);
      }
    }
  }

  lemma OneMoreMatch(init: seq<Text>, last: Text, members: seq<Package>)
    ensures AllMatch(init + [last], members) <==> AllMatch(init, members) && (IsEntry(last) ==> Matches(last, members))
  {
    assert forall i :: 0 <= i < |init| ==> (init + [last])[i] == init[i];
    assert (init + [last])[|init|] == last;
  }

  lemma BlockAccepted(before: Locked, block: Text, members: seq<Package>)
    ensures AddBlock(before, block, members).Ok? <==> (IsEntry(block) ==> Matches(block, members))
  {
  }

  lemma {:induction false} BlocksFound(blocks: seq<Text>, members: seq<Package>, name: string)
    requires Blocks(blocks, members).Ok?
    ensures name in Blocks(blocks, members).value.found <==> HasLocal(blocks, name)
  {
    if blocks != [] {
      var init, last := blocks[..|blocks| - 1], blocks[|blocks| - 1];
      BlocksFound(init, members, name);
      assert blocks == init + [last];
      OneMoreBlock(init, last, name);
    }
  }

  lemma OneMoreBlock(init: seq<Text>, last: Text, n: string)
    ensures HasLocal(init + [last], n) <==> HasLocal(init, n) || (IsEntry(last) && n in LocalName(last))
  {
    assert forall i :: 0 <= i < |init| ==> (init + [last])[i] == init[i];
    assert (init + [last])[|init|] == last;
  }

  /** A lock file is accepted exactly when its local entries are the members with the
      versions of their manifests: none with another version, none missing. */
  lemma LockAcceptedExactly(lock: Text, members: seq<Package>)
    ensures var blocks := Split(lock, OpensBlock);
      Lock(lock, members).Ok? <==>
      AllMatch(blocks, members) && (forall p :: p in members ==> HasLocal(blocks, p.name))
  {
    var blocks := Split(lock, OpensBlock);
    BlocksAccepted(blocks, members);
    if AllMatch(blocks, members) {
      forall p | p in members
        ensures p.name in Blocks(blocks, members).value.found <==> HasLocal(blocks, p.name)
      {
        BlocksFound(blocks, members, p.name);
      }
    }
  }

  /** A registry entry is kept byte for byte, version and checksum included, unless it
      quotes a member with its version; its own name does not matter. */
  lemma RegistryEntryIsByteExact(block: Text, members: seq<Package>)
    requires Value(block, "name").Some? && !IsLocal(block)
    requires forall k :: 0 <= k < |block| ==> Untouched(block[k], members)
    ensures EraseBlock(block, members) == Ok(block)
  {
    forall k | 0 <= k < |block|
      ensures EraseAll(block, members)[k] == block[k]
    {
      UntouchedIsKept(block[k], members);
    }
    assert EraseAll(block, members) == block;
  }

  // ---- the recipe of a recipe ----

  /** The manifest read from the new text, with the version that text assigns. Only the
      keys of its tables matter, and those are the old ones. */
  function Reread(m: Manifest, text: Text): Manifest {
    m.(text := text, version := PackageVersion(text))
  }

  /** The tree a recipe is. */
  function Again(s: Source, f: Files): Source
    requires |f.manifests| == |s.members|
  {
    Source(f.root, s.rootToml,
      seq(|s.members|, i requires 0 <= i < |s.members| => Reread(s.members[i], f.manifests[i].text)), f.lock)
  }

  lemma {:induction false} ManifestsAreNormalized(ms: seq<Manifest>)
    requires Members(ms).Ok?
    ensures |Members(ms).value.manifests| == |ms|
    ensures forall i :: 0 <= i < |ms| ==>
              Members(ms).value.manifests[i].dir == ms[i].dir && Ok(Members(ms).value.manifests[i].text) == Normalized(ms[i].text)
  {
    if ms != [] {
      ManifestsAreNormalized(ms[..|ms| - 1]);
    }
  }

  lemma MembersAgain(ms: seq<Manifest>, zs: seq<Manifest>)
    requires Members(ms).Ok? && |zs| == |ms| == |Members(ms).value.manifests|
    requires forall i :: 0 <= i < |ms| ==> zs[i] == Reread(ms[i], Members(ms).value.manifests[i].text)
    ensures HaveVersions(ms) && HaveVersions(zs)
    ensures Members(zs) == Ok(Collected(Packages(zs), Members(ms).value.manifests))
    ensures Members(ms).value.packages == Packages(ms) && SameNames(Packages(ms), Packages(zs))
    ensures forall p :: p in Packages(zs) ==> p.version == ZERO
  {
    MembersArePackages(ms);
    ManifestsAreNormalized(ms);
    forall i | 0 <= i < |ms|
      ensures SameMember(ms[i], zs[i]) && zs[i].version == Some(ZERO)
    {
      assert ms[i] in ms && Ok(Members(ms).value.manifests[i].text) == Normalized(ms[i].text);
      EditChangesVersionOnly(ms[i].text);
      EditedVersion(ms[i].text);
    }
    SameMembers(ms, zs);
    MembersArePackages(zs);
  }

  lemma {:induction false} FindSameLines(x: Text, y: Text, key: string)
    requires |x| == |y| && forall k :: 0 <= k < |x| ==> (Field(x[k], key).Some? <==> Field(y[k], key).Some?)
    ensures Find(x, key) == Find(y, key)
  {
    if x != [] && Field(x[0], key).None? {
      FindSameLines(x[1..], y[1..], key);
    }
  }

  lemma FindErased(x: Text, key: string, a: seq<Package>)
    requires Sane(a) && Plain(key)
    ensures Find(EraseAll(x, a), key) == Find(x, key)
    ensures Find(x, key) < |x| ==> Value(EraseAll(x, a), key) == Some(NeutralWord(Value(x, key).value, a))
  {
    forall k | 0 <= k < |x|
      ensures Field(EraseAll(x, a)[k], key).Some? <==> Field(x[k], key).Some?
    {
      FieldKept(x[k], key, a);
    }
    FindSameLines(x, EraseAll(x, a), key);
    if Find(x, key) < |x| {
      FieldKept(x[Find(x, key)], key, a);
    }
  }

  lemma {:induction false} OpensKept(line: Line, members: seq<Package>)
    ensures OpensBlock(EraseEdges(line, members)) <==> OpensBlock(line)
  {
    if members != [] {
      var init, last := members[..|members| - 1], members[|members| - 1];
      OpensKept(line, init);
      BeginningKept("[[package]]", EraseEdges(line, init), InQuotes(Spelled(last)), InQuotes(SpelledZero(last)));
    }
  }

  lemma ZeroIsVersionLine(line: Line) returns (post: string)
    ensures post in {"", "\n"} && ZeroVersion(line) == VersionLine(ZERO, post)
    ensures ZeroVersion(ZeroVersion(line)) == ZeroVersion(line)
  {
    post := if line != "" && line[|line| - 1] == '\n' then "\n" else "";
    assert ZeroVersion(line) == "version = " + (InQuotes(ZERO) + post);
    ZeroAlike(ZERO, ZERO, post);
    var l := VersionLine(ZERO, post);
    if post == "\n" {
      assert l[|l| - 1] == '\n';
    } else {
      assert l[|l| - 1] == QUOTE;
    }
    assert ZeroVersion(l) == "version = " + (InQuotes(ZERO) + post);
  }

  /** A version line is no other field and opens no entry. */
  lemma OnlyVersion(line: Line)
    requires Field(line, "version").Some?
    ensures Field(line, "name").None? && Field(line, "source").None? && !OpensBlock(line)
  {
    FieldShape(line, "version", Field(line, "version").value);
    assert line[0] == 'v';
  }

  lemma VersionZeroed(x: Text, i: nat, key: string)
    requires i < |x| && Field(x[i], "version").Some? && key in {"name", "source"}
    ensures Find(x[i := ZeroVersion(x[i])], key) == Find(x, key)
    ensures Value(x[i := ZeroVersion(x[i])], key) == Value(x, key)
  {
    var post := ZeroIsVersionLine(x[i]);
    VersionLineFields(ZERO, post);
    OnlyVersion(x[i]);
    FindAlike(x, x[i := ZeroVersion(x[i])], key);
  }

  lemma VersionStaysFirst(x: Text, i: nat)
    requires i < |x| && Find(x, "version") == i
    ensures Find(x[i := ZeroVersion(x[i])], "version") == i
  {
    var post := ZeroIsVersionLine(x[i]);
    VersionLineFields(ZERO, post);
    FindSameLines(x, x[i := ZeroVersion(x[i])], "version");
  }

  lemma StableLines(e: Text, z: seq<Package>)
    requires forall p :: p in z ==> p.version == ZERO
    ensures EraseAll(e, z) == e
  {
    forall k | 0 <= k < |e|
      ensures EraseAll(e, z)[k] == e[k]
    {
      ErasedIsStable(e[k], z);
    }
  }

  lemma RegistryBlockAgain(x: Text, a: seq<Package>, z: seq<Package>)
    requires Sane(a) && !IsLocal(x) && EraseBlock(x, a).Ok? && forall p :: p in z ==> p.version == ZERO
    ensures var e := EraseBlock(x, a).value; EraseBlock(e, z) == Ok(e) && !IsLocal(e)
  {
    FindErased(x, "name", a);
    FindErased(x, "source", a);
    StableLines(EraseAll(x, a), z);
  }

  /** A local block with its version zeroed, before the edges are erased. */
  function Released(x: Text): Text {
    var i := Find(x, "version");
    if i < |x| then x[i := ZeroVersion(x[i])] else x
  }

  lemma ReleasedFields(x: Text)
    requires Find(x, "version") < |x|
    ensures Value(Released(x), "name") == Value(x, "name") && Value(Released(x), "source") == Value(x, "source")
    ensures Find(Released(x), "version") == Find(x, "version")
  {
    var i := Find(x, "version");
    VersionZeroed(x, i, "name");
    VersionZeroed(x, i, "source");
    VersionStaysFirst(x, i);
  }

  lemma ErasedFields(y: Text, a: seq<Package>)
    requires Sane(a)
    ensures IsLocal(EraseAll(y, a)) <==> IsLocal(y)
    ensures Find(EraseAll(y, a), "version") == Find(y, "version")
    ensures Value(y, "name").Some? ==> Value(EraseAll(y, a), "name") == Some(NeutralWord(Value(y, "name").value, a))
  {
    FindErased(y, "name", a);
    FindErased(y, "source", a);
    FindErased(y, "version", a);
  }

  lemma ZeroBlock(e: Text, z: seq<Package>, name: string, line: Line)
    requires IsLocal(e) && Value(e, "name") == Some(name) && Find(e, "version") < |e|
    requires e[Find(e, "version")] == ZeroVersion(line)
    requires Package(name, ZERO) in z && forall p :: p in z ==> p.version == ZERO
    ensures EraseBlock(e, z) == Ok(e)
  {
    ZeroRead(e, line);
    LocalErased(e, z, name, ZERO);
    StableLines(e, z);
  }

  lemma ZeroRead(e: Text, line: Line)
    requires Find(e, "version") < |e| && e[Find(e, "version")] == ZeroVersion(line)
    ensures Value(e, "version") == Some(ZERO) && Released(e) == e
  {
    ZeroField(line, ZERO);
    Rewritten(e, Find(e, "version"));
  }

  lemma Rewritten(e: Text, i: nat)
    requires i < |e| && ZeroVersion(e[i]) == e[i]
    ensures e[i := ZeroVersion(e[i])] == e
  {
  }

  lemma ZeroField(line: Line, v: string)
    requires v == ZERO
    ensures Field(ZeroVersion(line), "version") == Some(v)
    ensures ZeroVersion(ZeroVersion(line)) == ZeroVersion(line)
  {
    var post := ZeroIsVersionLine(line);
    VersionLineFields(v, post);
  }

  lemma LocalErased(e: Text, z: seq<Package>, name: string, v: string)
    requires IsLocal(e) && Value(e, "name") == Some(name) && Value(e, "version") == Some(v) && Package(name, v) in z
    ensures EraseBlock(e, z) == Ok(EraseAll(Released(e), z))
  {
  }

  lemma LocalBlockAgain(x: Text, a: seq<Package>, z: seq<Package>)
    requires Sane(a) && IsLocal(x) && EraseBlock(x, a).Ok?
    requires SameNames(a, z) && forall p :: p in z ==> p.version == ZERO
    ensures var e := EraseBlock(x, a).value;
      EraseBlock(e, z) == Ok(e) && IsLocal(e) && Value(e, "name") == Value(x, "name")
  {
    var i, name := Find(x, "version"), Value(x, "name").value;
    ReleasedFields(x);
    ErasedFields(Released(x), a);
    MemberNameKept(a, z, Package(name, Value(x, "version").value));
    ZeroKept(x[i], a);
    ZeroBlock(EraseAll(Released(x), a), z, name, x[i]);
  }

  lemma MemberNameKept(a: seq<Package>, z: seq<Package>, p: Package)
    requires Sane(a) && p in a && SameNames(a, z) && forall q :: q in z ==> q.version == ZERO
    ensures NeutralWord(p.name, a) == p.name && Package(p.name, ZERO) in z
  {
    NeutralWordMeaning(p.name, a);
    forall q | q in a
      ensures p.name != Spelled(q)
    {
      assert Spelled(q)[|q.name|] == ' ';
    }
    var j :| 0 <= j < |a| && a[j] == p;
    assert z[j] in z;
  }

  lemma ErasedIsSection(x: Text, first: bool, a: seq<Package>)
    requires IsSection(x, first, OpensBlock) && EraseBlock(x, a).Ok?
    ensures IsSection(EraseBlock(x, a).value, first, OpensBlock)
  {
    var e := EraseBlock(x, a).value;
    forall k | 0 <= k < |x|
      ensures OpensBlock(e[k]) <==> OpensBlock(x[k])
    {
      OpensKept(x[k], a);
      if IsLocal(x) && k == Find(x, "version") {
        OnlyVersion(x[k]);
        OpensKept(ZeroVersion(x[k]), a);
        assert ZeroVersion(x[k])[0] == 'v';
      }
    }
  }

  lemma {:induction false} BlocksAgain(xs: seq<Text>, a: seq<Package>, z: seq<Package>)
    requires Sane(a) && SameNames(a, z) && (forall p :: p in z ==> p.version == ZERO)
    requires Blocks(xs, a).Ok? && Sectioned(xs, OpensBlock)
    ensures Blocks(Blocks(xs, a).value.blocks, z) == Blocks(xs, a)
    ensures |Blocks(xs, a).value.blocks| == |xs| && Sectioned(Blocks(xs, a).value.blocks, OpensBlock)
  {
    if xs != [] {
      var n := |xs| - 1;
      BlocksAgain(xs[..n], a, z);
      var x := xs[n];
      assert IsSection(x, n == 0, OpensBlock);
      if IsEntry(x) {
        BlockAgain(x, n == 0, a, z);
      }
      var done, e := Blocks(xs[..n], a).value, Blocks(xs, a).value.blocks[n];
      assert (done.blocks + [e])[..n] == done.blocks;
    }
  }

  lemma BlockAgain(x: Text, first: bool, a: seq<Package>, z: seq<Package>)
    requires Sane(a) && SameNames(a, z) && (forall p :: p in z ==> p.version == ZERO)
    requires IsEntry(x) && IsSection(x, first, OpensBlock) && EraseBlock(x, a).Ok?
    ensures var e := EraseBlock(x, a).value;
      EraseBlock(e, z) == Ok(e) && LocalName(e) == LocalName(x) && IsEntry(e) && IsSection(e, first, OpensBlock)
  {
    ErasedIsSection(x, first, a);
    if IsLocal(x) {
      LocalBlockAgain(x, a, z);
    } else {
      RegistryBlockAgain(x, a, z);
    }
  }

  /** The recipe of a recipe is the recipe. */
  lemma RecipeOfRecipe(s: Source)
    requires RecipeOf(s).Ok? && HaveVersions(s.members) && Sane(Packages(s.members))
    ensures |RecipeOf(s).value.manifests| == |s.members|
    ensures RecipeOf(Again(s, RecipeOf(s).value)) == RecipeOf(s)
  {
    var f := RecipeOf(s).value;
    ManifestsAreNormalized(s.members);
    var zs := Again(s, f).members;
    MembersAgain(s.members, zs);
    var a, z := Packages(s.members), Packages(zs);
    var xs := Split(s.lock, OpensBlock);
    SplitMeaning(s.lock, OpensBlock);
    BlocksAgain(xs, a, z);
    SplitJoin(Blocks(xs, a).value.blocks, OpensBlock);
    NamesFound(a, z, Blocks(xs, a).value.found);
  }
}
