/** Exactly which lock files come out alike: versions of members are erased, and nothing
    else (scripts/docker-dependency-recipe.py, the lock part of `recipe`). */
module LockErasure {
  import opened Lockfile
  import opened Manifests
  import opened Options
  import opened Recipe
  import opened RecipeErasure
  import opened TextEdits

  /** A line of a lock file as cargo writes it: at most one quoted word. */
  predicate Shaped(line: Line) {
    Quotes(line) == 0 || Quotes(line) == 2
  }

  /** The same line, or lines that agree outside of their quoted words, which become the same
      word when versions are erased (`AlikeWordsExactly` lists the cases). */
  ghost predicate AlikeLines(l: Line, m: Line, a: seq<Package>, b: seq<Package>) {
    (Plain(l) && l == m) || exists pre, v, w, post :: AlikeWords(l, m, pre, v, w, post, a, b)
  }

  predicate AlikeWords(
      l: Line, m: Line, pre: string, v: string, w: string, post: string, a: seq<Package>, b: seq<Package>) {
    && Plain(pre) && Plain(v) && Plain(w) && Plain(post)
    && l == pre + (InQuotes(v) + post) && m == pre + (InQuotes(w) + post)
    && NeutralWord(v, a) == NeutralWord(w, b)
  }

  /** The member is in the word, with a version that is erased. */
  predicate Rewrites(p: Package, word: string) {
    p.version != ZERO && word == Spelled(p)
  }

  /** Two words become the same in two cases: they name the same member with the versions of
      the two trees, or no member is erased in either and they are the same word. And in a
      third one, on either side: one names a member with its version, and the other one is
      that member with version 0.0.0 as it stands. */
  lemma AlikeWordsExactly(v: string, w: string, a: seq<Package>, b: seq<Package>)
    requires Sane(a) && Sane(b)
    ensures NeutralWord(v, a) == NeutralWord(w, b) <==>
      || (exists p, q :: p in a && q in b && Rewrites(p, v) && Rewrites(q, w) && p.name == q.name)
      || (!RewrittenIn(v, a) && !RewrittenIn(w, b) && v == w)
      || (!RewrittenIn(w, b) && exists p :: p in a && Rewrites(p, v) && w == SpelledZero(p))
      || (!RewrittenIn(v, a) && exists q :: q in b && Rewrites(q, w) && v == SpelledZero(q))
  {
    RewrittenWord(v, a);
    RewrittenWord(w, b);
    forall p: Package, q: Package | p in a && q in b && SpelledZero(p) == SpelledZero(q)
      ensures p.name == q.name
    {
      SpellingIsUnique(p.name, ZERO, q.name, ZERO);
    }
    if RewrittenIn(v, a) {
      var p :| p in a && p.version != ZERO && v == Spelled(p);
      assert Rewrites(p, v);
    }
    if RewrittenIn(w, b) {
      var q :| q in b && q.version != ZERO && w == Spelled(q);
      assert Rewrites(q, w);
    }
  }

  lemma {:induction false} PlainIsKept(line: Line, members: seq<Package>)
    requires Plain(line)
    ensures EraseEdges(line, members) == line
  {
    if members != [] {
      var init, last := members[..|members| - 1], members[|members| - 1];
      PlainIsKept(line, init);
      NothingToReplace(line, InQuotes(Spelled(last)), InQuotes(SpelledZero(last)));
    }
  }

  lemma LinesEraseAlike(l: Line, m: Line, a: seq<Package>, b: seq<Package>)
    requires Sane(a) && Sane(b) && Shaped(l) && Shaped(m)
    ensures EraseEdges(l, a) == EraseEdges(m, b) <==> AlikeLines(l, m, a, b)
  {
    if AlikeLines(l, m, a, b) {
      AlikeComeOutAlike(l, m, a, b);
    }
    if EraseEdges(l, a) == EraseEdges(m, b) {
      ErasingKeepsQuotes(l, a);
      ErasingKeepsQuotes(m, b);
      PlainHasNoQuotes(l);
      PlainHasNoQuotes(m);
      if Quotes(l) == 0 {
        PlainIsKept(l, a);
        PlainIsKept(m, b);
      } else {
        WordsWereAlike(l, m, a, b);
      }
    }
  }

  lemma AlikeComeOutAlike(l: Line, m: Line, a: seq<Package>, b: seq<Package>)
    requires Sane(a) && Sane(b) && AlikeLines(l, m, a, b)
    ensures EraseEdges(l, a) == EraseEdges(m, b)
  {
    if Plain(l) && l == m {
      PlainIsKept(l, a);
      PlainIsKept(m, b);
    } else {
      var pre, v, w, post :| AlikeWords(l, m, pre, v, w, post, a, b);
      EraseWord(pre, v, post, a);
      EraseWord(pre, w, post, b);
    }
  }

  lemma WordsWereAlike(l: Line, m: Line, a: seq<Package>, b: seq<Package>)
    requires Sane(a) && Sane(b) && Quotes(l) == Quotes(m) == 2 && EraseEdges(l, a) == EraseEdges(m, b)
    ensures AlikeLines(l, m, a, b)
  {
    var pre, v, post := TwoQuotes(l);
    var pre', w, post' := TwoQuotes(m);
    EraseWord(pre, v, post, a);
    EraseWord(pre', w, post', b);
    SameWordLine(pre, NeutralWord(v, a), post, pre', NeutralWord(w, b), post');
    assert AlikeWords(l, m, pre, v, w, post, a, b);
  }

  // ---- entries ----

  predicate AllShaped(block: Text) {
    forall k :: 0 <= k < |block| ==> Shaped(block[k])
  }

  /** A local entry without its version. */
  function Unversioned(block: Text): Text {
    if IsLocal(block) then Released(block) else block
  }

  ghost predicate AlikeEntries(x: Text, y: Text, a: seq<Package>, b: seq<Package>) {
    && |Unversioned(x)| == |Unversioned(y)|
    && forall k :: 0 <= k < |Unversioned(x)| ==> AlikeLines(Unversioned(x)[k], Unversioned(y)[k], a, b)
  }

  lemma UnversionedIsShaped(x: Text)
    requires AllShaped(x)
    ensures AllShaped(Unversioned(x))
  {
    var i := Find(x, "version");
    if i < |x| {
      var post := ZeroIsVersionLine(x[i]);
      QuotesOfWord("version = ", ZERO, post);
    }
  }

  lemma EntriesEraseAlike(x: Text, y: Text, a: seq<Package>, b: seq<Package>)
    requires Sane(a) && Sane(b) && AllShaped(x) && AllShaped(y)
    requires EraseBlock(x, a).Ok? && EraseBlock(y, b).Ok?
    ensures EraseBlock(x, a) == EraseBlock(y, b) <==> AlikeEntries(x, y, a, b)
  {
    var p, q := Unversioned(x), Unversioned(y);
    UnversionedIsShaped(x);
    UnversionedIsShaped(y);
    ErasedUnversioned(x, a);
    ErasedUnversioned(y, b);
    forall k | 0 <= k < |p| && k < |q|
      ensures EraseAll(p, a)[k] == EraseAll(q, b)[k] <==> AlikeLines(p[k], q[k], a, b)
    {
      LinesEraseAlike(p[k], q[k], a, b);
    }
    assert EraseAll(p, a) == EraseAll(q, b) <==>
      |p| == |q| && forall k :: 0 <= k < |p| ==> EraseAll(p, a)[k] == EraseAll(q, b)[k];
  }

  lemma ErasedUnversioned(x: Text, a: seq<Package>)
    requires EraseBlock(x, a).Ok?
    ensures EraseBlock(x, a) == Ok(EraseAll(Unversioned(x), a))
  {
  }

  // ---- lock files ----

  lemma {:induction false} BlockCount(xs: seq<Text>, a: seq<Package>)
    requires Blocks(xs, a).Ok?
    ensures |Blocks(xs, a).value.blocks| == |xs|
    decreases |xs|
  {
    if xs != [] {
      BlockCount(xs[..|xs| - 1], a);
    }
  }

  /** What the i-th block comes out as. */
  predicate IsOutput(x: Text, out: Text, a: seq<Package>) {
    if IsEntry(x) then EraseBlock(x, a) == Ok(out) else out == x
  }

  lemma {:induction false} LastBlock(xs: seq<Text>, a: seq<Package>)
    requires xs != [] && Blocks(xs, a).Ok?
    ensures var n := |xs| - 1;
      && Blocks(xs[..n], a).Ok?
      && |Blocks(xs, a).value.blocks| == |xs|
      && Blocks(xs, a).value.blocks[..n] == Blocks(xs[..n], a).value.blocks
      && IsOutput(xs[n], Blocks(xs, a).value.blocks[n], a)
  {
    BlockCount(xs[..|xs| - 1], a);
  }

  lemma SameAt(s: seq<Text>, n: nat, i: nat)
    requires i < n <= |s|
    ensures s[..n][i] == s[i]
  {
  }

  lemma {:induction false} BlockContents(xs: seq<Text>, a: seq<Package>, i: nat)
    requires Blocks(xs, a).Ok? && i < |xs|
    ensures |Blocks(xs, a).value.blocks| == |xs| && IsOutput(xs[i], Blocks(xs, a).value.blocks[i], a)
    decreases |xs|
  {
    var n := |xs| - 1;
    LastBlock(xs, a);
    if i < n {
      BlockContents(xs[..n], a, i);
      SameAt(Blocks(xs, a).value.blocks, n, i);
      SameAt(xs, n, i);
    }
  }

  predicate ShapedLock(lock: Text) {
    var xs := Split(lock, OpensBlock);
    forall i :: 0 <= i < |xs| ==> AllShaped(xs[i])
  }

  /** The text before the first entry is the same, and the entries are alike in turn. */
  ghost predicate AlikeLocks(l: Text, m: Text, a: seq<Package>, b: seq<Package>) {
    var xs, ys := Split(l, OpensBlock), Split(m, OpensBlock);
    |xs| == |ys| && xs[0] == ys[0] && forall i :: 0 < i < |xs| ==> AlikeEntries(xs[i], ys[i], a, b)
  }

  lemma EntriesFollow(lock: Text, i: nat)
    requires i < |Split(lock, OpensBlock)|
    ensures IsEntry(Split(lock, OpensBlock)[i]) <==> i > 0
  {
    SplitMeaning(lock, OpensBlock);
    assert IsSection(Split(lock, OpensBlock)[i], i == 0, OpensBlock);
  }

  function Zeros(members: seq<Package>): (zs: seq<Package>)
    ensures |zs| == |members| && forall i :: 0 <= i < |members| ==> zs[i] == Package(members[i].name, ZERO)
  {
    seq(|members|, i requires 0 <= i < |members| => Package(members[i].name, ZERO))
  }

  lemma OutputSections(lock: Text, a: seq<Package>)
    requires Sane(a) && Blocks(Split(lock, OpensBlock), a).Ok?
    ensures var out := Blocks(Split(lock, OpensBlock), a).value.blocks;
      |out| == |Split(lock, OpensBlock)| && Split(Join(out), OpensBlock) == out
  {
    SplitMeaning(lock, OpensBlock);
    BlocksAgain(Split(lock, OpensBlock), a, Zeros(a));
    SplitJoin(Blocks(Split(lock, OpensBlock), a).value.blocks, OpensBlock);
  }

  lemma BlockComparison(l: Text, m: Text, a: seq<Package>, b: seq<Package>, i: nat)
    requires Sane(a) && Sane(b) && ShapedLock(l) && ShapedLock(m)
    requires Blocks(Split(l, OpensBlock), a).Ok? && Blocks(Split(m, OpensBlock), b).Ok?
    requires i < |Split(l, OpensBlock)| && i < |Split(m, OpensBlock)|
    ensures var xs, ys := Split(l, OpensBlock), Split(m, OpensBlock);
      var o, p := Blocks(xs, a).value.blocks, Blocks(ys, b).value.blocks;
      && |o| == |xs| && |p| == |ys|
      && (o[i] == p[i] <==> if i == 0 then xs[0] == ys[0] else AlikeEntries(xs[i], ys[i], a, b))
  {
    var xs, ys := Split(l, OpensBlock), Split(m, OpensBlock);
    BlockContents(xs, a, i);
    BlockContents(ys, b, i);
    EntriesFollow(l, i);
    EntriesFollow(m, i);
    if i > 0 {
      EntriesEraseAlike(xs[i], ys[i], a, b);
    }
  }

  lemma SameTexts(o: seq<Text>, p: seq<Text>)
    requires |o| > 0 && |p| > 0
    ensures o == p <==> |o| == |p| && o[0] == p[0] && forall i :: 0 < i < |o| ==> o[i] == p[i]
  {
    if |o| == |p| && o[0] == p[0] && forall i :: 0 < i < |o| ==> o[i] == p[i] {
      assert forall i :: 0 <= i < |o| ==> o[i] == p[i];
    }
  }

  lemma BlocksCompare(l: Text, m: Text, a: seq<Package>, b: seq<Package>)
    requires Sane(a) && Sane(b) && ShapedLock(l) && ShapedLock(m)
    requires Blocks(Split(l, OpensBlock), a).Ok? && Blocks(Split(m, OpensBlock), b).Ok?
    ensures Blocks(Split(l, OpensBlock), a).value.blocks == Blocks(Split(m, OpensBlock), b).value.blocks <==>
            AlikeLocks(l, m, a, b)
  {
    var xs, ys := Split(l, OpensBlock), Split(m, OpensBlock);
    var o, p := Blocks(xs, a).value.blocks, Blocks(ys, b).value.blocks;
    BlockCount(xs, a);
    BlockCount(ys, b);
    SameTexts(o, p);
    BlockComparison(l, m, a, b, 0);
    forall i | 0 < i < |xs| && i < |ys|
      ensures o[i] == p[i] <==> AlikeEntries(xs[i], ys[i], a, b)
    {
      BlockComparison(l, m, a, b, i);
    }
  }

  /** Two accepted lock files give the same text if and only if they are the same up to
      the versions of members: in local entries and in the words that name them. */
  lemma LockErasesVersionsOnly(l: Text, m: Text, a: seq<Package>, b: seq<Package>)
    requires Sane(a) && Sane(b) && ShapedLock(l) && ShapedLock(m)
    requires Lock(l, a).Ok? && Lock(m, b).Ok?
    ensures Lock(l, a) == Lock(m, b) <==> AlikeLocks(l, m, a, b)
  {
    OutputSections(l, a);
    OutputSections(m, b);
    BlocksCompare(l, m, a, b);
  }

  // ---- whole trees ----

  ghost predicate AlikeTrees(s: Source, t: Source)
    requires HaveVersions(s.members) && HaveVersions(t.members)
  {
    && s.root == t.root && |s.members| == |t.members|
    && (forall i :: 0 <= i < |s.members| ==>
          s.members[i].dir == t.members[i].dir && DifferInVersion(s.members[i].text, t.members[i].text))
    && AlikeLocks(s.lock, t.lock, Packages(s.members), Packages(t.members))
  }

  lemma FilesAgree(m: Manifest, n: Manifest, f: File, g: File)
    requires f.dir == m.dir && Ok(f.text) == Normalized(m.text)
    requires g.dir == n.dir && Ok(g.text) == Normalized(n.text)
    ensures f == g <==> m.dir == n.dir && DifferInVersion(m.text, n.text)
  {
    ManifestErasure(m.text, n.text);
  }

  lemma {:induction false} ManifestsAgree(ms: seq<Manifest>, ns: seq<Manifest>)
    requires Members(ms).Ok? && Members(ns).Ok?
    ensures Members(ms).value.manifests == Members(ns).value.manifests <==>
      |ms| == |ns| && forall i :: 0 <= i < |ms| ==> ms[i].dir == ns[i].dir && DifferInVersion(ms[i].text, ns[i].text)
  {
    ManifestsAreNormalized(ms);
    ManifestsAreNormalized(ns);
    var f, g := Members(ms).value.manifests, Members(ns).value.manifests;
    forall i | 0 <= i < |ms| && i < |ns|
      ensures f[i] == g[i] <==> ms[i].dir == ns[i].dir && DifferInVersion(ms[i].text, ns[i].text)
    {
      FilesAgree(ms[i], ns[i], f[i], g[i]);
    }
    assert f == g <==> |f| == |g| && forall i :: 0 <= i < |f| ==> f[i] == g[i];
  }

  /** Two accepted trees give the same recipe if and only if they are the same up to the
      versions of their members: a version bump never shows, and any other change does. */
  lemma RecipesAgreeExactly(s: Source, t: Source)
    requires RecipeOf(s).Ok? && RecipeOf(t).Ok?
    requires HaveVersions(s.members) && HaveVersions(t.members)
    requires Sane(Packages(s.members)) && Sane(Packages(t.members)) && ShapedLock(s.lock) && ShapedLock(t.lock)
    ensures RecipeOf(s) == RecipeOf(t) <==> AlikeTrees(s, t)
  {
    MembersArePackages(s.members);
    MembersArePackages(t.members);
    ManifestsAgree(s.members, t.members);
    LockErasesVersionsOnly(s.lock, t.lock, Packages(s.members), Packages(t.members));
  }
}
