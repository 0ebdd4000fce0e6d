/** Erasing member versions from a lock file
    (scripts/docker-dependency-recipe.py, the lock part of `recipe`). */
module Lockfile {
  import opened Options
  import opened TextEdits
  import opened Manifests

  datatype Package = Package(name: string, version: string)

  const ZERO: string := "0.0.0"

  // ---- entries ----

  predicate OpensBlock(line: Line) {
    "[[package]]" <= line
  }

  /** The value of a line `key = "value"`. */
  function Field(line: Line, key: string): Option<string> {
    var head := key + " = \"";
    if !(head <= line) then None else QuotedToEnd(line[|head|..])
  }

  /** A nonempty text closed by a quote that ends the line. */
  function QuotedToEnd(s: string): Option<string> {
    var n := Run(s);
    if n > 0 && n < |s| && s[n] == QUOTE && s[n + 1..] in {"", "\n"} then Some(s[..n]) else None
  }

  /** The first line assigning the key, or the length of the block. */
  function Find(block: Text, key: string): (i: nat)
    ensures i <= |block|
    ensures forall k :: 0 <= k < i ==> Field(block[k], key).None?
    ensures i < |block| ==> Field(block[i], key).Some?
  {
    if block == [] || Field(block[0], key).Some? then 0 else 1 + Find(block[1..], key)
  }

  function Value(block: Text, key: string): Option<string> {
    var i := Find(block, key);
    if i < |block| then Field(block[i], key) else None
  }

  predicate IsLocal(block: Text) {
    Value(block, "source").None?
  }

  function ZeroVersion(line: Line): Line {
    "version = " + InQuotes(ZERO) + if line != "" && line[|line| - 1] == '\n' then "\n" else ""
  }

  // ---- version-qualified edges ----

  function Spelled(p: Package): string {
    p.name + " " + p.version
  }

  function SpelledZero(p: Package): string {
    p.name + " " + ZERO
  }

  function EraseEdge(line: Line, p: Package): Line {
    ReplaceAll(line, InQuotes(Spelled(p)), InQuotes(SpelledZero(p)))
  }

  function EraseEdges(line: Line, members: seq<Package>): Line {
    if members == [] then line
    else EraseEdge(EraseEdges(line, members[..|members| - 1]), members[|members| - 1])
  }

  function EraseAll(block: Text, members: seq<Package>): (erased: Text)
    ensures |erased| == |block| && forall k :: 0 <= k < |block| ==> erased[k] == EraseEdges(block[k], members)
  {
    seq(|block|, k requires 0 <= k < |block| => EraseEdges(block[k], members))
  }

  // ---- one block ----

  function EraseBlock(block: Text, members: seq<Package>): Result<Text, Error> {
    var name, version := Value(block, "name"), Value(block, "version");
    if name.None? then Err(LockUnreadable)
    else if !IsLocal(block) then Ok(EraseAll(block, members))
    else if version.None? then Err(LockUnreadable)
    else if Package(name.value, version.value) !in members then Err(LockMismatch(name.value))
    else
      var i := Find(block, "version");
      Ok(EraseAll(block[i := ZeroVersion(block[i])], members))
  }

  // ---- the names and versions cargo admits ----

  predicate SaneText(s: string) {
    s != "" && QUOTE !in s && '\n' !in s
  }

  predicate Sane(members: seq<Package>) {
    && (forall p :: p in members ==> SaneText(p.name) && SaneText(p.version) && ' ' !in p.name)
    && (forall i, j :: 0 <= i < j < |members| ==> members[i].name != members[j].name)
  }

  lemma SpellingIsUnique(n: string, v: string, m: string, w: string)
    requires ' ' !in n && ' ' !in m && n + " " + v == m + " " + w
    ensures n == m && v == w
  {
    assert n + " " + v == n + ([' '] + v) && m + " " + w == m + ([' '] + w);
    FirstMark(n, v, m, w, ' ');
  }

  /** What a quoted word becomes: a member with its version loses the version, any
      other word stays. */
  function NeutralWord(word: string, members: seq<Package>): string {
    if members == [] then word
    else
      var w, last := NeutralWord(word, members[..|members| - 1]), members[|members| - 1];
      if w == Spelled(last) then SpelledZero(last) else w
  }

  predicate SpelledIn(word: string, members: seq<Package>) {
    exists p :: p in members && word == Spelled(p)
  }

  lemma {:induction false} NeutralWordMeaning(word: string, members: seq<Package>)
    requires Sane(members)
    ensures !SpelledIn(word, members) ==> NeutralWord(word, members) == word
    ensures forall p :: p in members && word == Spelled(p) ==> NeutralWord(word, members) == SpelledZero(p)
  {
    if members != [] {
      var init, last := members[..|members| - 1], members[|members| - 1];
      assert members == init + [last];
      NeutralWordMeaning(word, init);
      forall p | p in init
        ensures SpelledZero(p) != Spelled(last) && Spelled(p) != Spelled(last)
      {
        Apart(members, p);
      }
    }
  }

  lemma Apart(members: seq<Package>, p: Package)
    requires Sane(members) && members != [] && p in members[..|members| - 1]
    ensures var last := members[|members| - 1]; SpelledZero(p) != Spelled(last) && Spelled(p) != Spelled(last)
  {
    var last := members[|members| - 1];
    assert p.name != last.name && p in members && last in members;
    if SpelledZero(p) == Spelled(last) {
      SpellingIsUnique(p.name, ZERO, last.name, last.version);
    }
    if Spelled(p) == Spelled(last) {
      SpellingIsUnique(p.name, p.version, last.name, last.version);
    }
  }

  lemma PlainSpelling(members: seq<Package>, p: Package)
    requires Sane(members) && p in members
    ensures Plain(Spelled(p)) && Plain(SpelledZero(p))
  {
  }

  /** Erasing in a line with a single quoted word. */
  lemma {:induction false} EraseWord(pre: string, word: string, post: string, members: seq<Package>)
    requires Plain(pre) && Plain(word) && Plain(post) && Sane(members)
    ensures EraseEdges(pre + (InQuotes(word) + post), members) == pre + (InQuotes(NeutralWord(word, members)) + post)
    ensures Plain(NeutralWord(word, members))
  {
    if members != [] {
      var init, last := members[..|members| - 1], members[|members| - 1];
      EraseWord(pre, word, post, init);
      PlainSpelling(members, last);
      ReplaceWord(pre, NeutralWord(word, init), post, Spelled(last), SpelledZero(last));
    }
  }

  // ---- lines without such a word ----

  predicate Occurs(pattern: string, s: string) {
    exists i :: 0 <= i <= |s| && pattern <= s[i..]
  }

  lemma {:induction false} NoOccurrence(s: string, pattern: string, into: string)
    requires pattern != "" && !Occurs(pattern, s)
    ensures ReplaceAll(s, pattern, into) == s
  {
    if s != "" {
      assert s[0..] == s;
      forall i | 0 <= i <= |s[1..]|
        ensures !(pattern <= s[1..][i..])
      {
        assert s[1..][i..] == s[i + 1..];
      }
      NoOccurrence(s[1..], pattern, into);
    }
  }

  /** No member is quoted with its version anywhere in the line. */
  predicate Untouched(line: Line, members: seq<Package>) {
    forall p :: p in members ==> !Occurs(InQuotes(Spelled(p)), line)
  }

  lemma {:induction false} UntouchedIsKept(line: Line, members: seq<Package>)
    requires Untouched(line, members)
    ensures EraseEdges(line, members) == line
  {
    if members != [] {
      var init, last := members[..|members| - 1], members[|members| - 1];
      assert members == init + [last];
      UntouchedIsKept(line, init);
      NoOccurrence(line, InQuotes(Spelled(last)), InQuotes(SpelledZero(last)));
    }
  }

  /** Once all versions are zero, erasing changes nothing, whatever the line. */
  lemma {:induction false} ErasedIsStable(line: Line, members: seq<Package>)
    requires forall p :: p in members ==> p.version == ZERO
    ensures EraseEdges(line, members) == line
  {
    if members != [] {
      var init, last := members[..|members| - 1], members[|members| - 1];
      assert members == init + [last];
      ErasedIsStable(line, init);
      assert last in members;
      ReplaceBySame(line, InQuotes(Spelled(last)));
    }
  }

  predicate RewrittenIn(word: string, members: seq<Package>) {
    exists p :: p in members && p.version != ZERO && word == Spelled(p)
  }

  /** A word common to two trees is erased alike exactly when it is spelled like a
      member with its (nonzero) version in both of them or in neither. */
  lemma FixedWordAgrees(word: string, a: seq<Package>, b: seq<Package>)
    requires Sane(a) && Sane(b)
    ensures NeutralWord(word, a) == NeutralWord(word, b) <==> (RewrittenIn(word, a) <==> RewrittenIn(word, b))
  {
    RewrittenWord(word, a);
    RewrittenWord(word, b);
    forall p, q | p in a && q in b && word == Spelled(p) == Spelled(q)
      ensures SpelledZero(p) == SpelledZero(q)
    {
      SpellingIsUnique(p.name, p.version, q.name, q.version);
    }
  }

  lemma RewrittenWord(word: string, members: seq<Package>)
    requires Sane(members)
    ensures !RewrittenIn(word, members) ==> NeutralWord(word, members) == word
    ensures forall p :: p in members && p.version != ZERO && word == Spelled(p) ==>
              NeutralWord(word, members) == SpelledZero(p) != word
  {
    NeutralWordMeaning(word, members);
    forall p | p in members && p.version != ZERO && word == Spelled(p)
      ensures SpelledZero(p) != word
    {
      if SpelledZero(p) == word {
        SpellingIsUnique(p.name, p.version, p.name, ZERO);
      }
    }
  }

  // ---- fields survive the erasure of edges ----

  function Quotes(s: string): nat {
    if s == "" then 0 else (if s[0] == QUOTE then 1 else 0) + Quotes(s[1..])
  }

  lemma {:induction false} QuotesConcat(s: string, t: string)
    ensures Quotes(s + t) == Quotes(s) + Quotes(t)
  {
    if s == "" {
      assert s + t == t;
    } else {
      QuotesConcat(s[1..], t);
      assert (s + t)[1..] == s[1..] + t;
    }
  }

  lemma {:induction false} PlainHasNoQuotes(s: string)
    ensures Plain(s) <==> Quotes(s) == 0
  {
    if s != "" {
      PlainHasNoQuotes(s[1..]);
      assert s == [s[0]] + s[1..];
    }
  }

  lemma QuotesOfWord(pre: string, word: string, post: string)
    requires Plain(pre) && Plain(word) && Plain(post)
    ensures Quotes(pre + (InQuotes(word) + post)) == 2
  {
    PlainHasNoQuotes(pre);
    PlainHasNoQuotes(word);
    PlainHasNoQuotes(post);
    QuotesConcat(pre, InQuotes(word) + post);
    QuotesConcat(InQuotes(word), post);
    QuotesConcat([QUOTE] + word, [QUOTE]);
    QuotesConcat([QUOTE], word);
  }

  lemma {:induction false} ReplaceKeepsQuotes(s: string, pattern: string, into: string)
    requires pattern != "" && Quotes(pattern) == Quotes(into)
    ensures Quotes(ReplaceAll(s, pattern, into)) == Quotes(s)
  {
    if s != "" {
      if pattern <= s {
        ReplaceKeepsQuotes(s[|pattern|..], pattern, into);
        QuotesConcat(into, ReplaceAll(s[|pattern|..], pattern, into));
        QuotesConcat(pattern, s[|pattern|..]);
        assert pattern + s[|pattern|..] == s;
      } else {
        ReplaceKeepsQuotes(s[1..], pattern, into);
        QuotesConcat([s[0]], ReplaceAll(s[1..], pattern, into));
      }
    }
  }

  lemma {:induction false} ErasingKeepsQuotes(line: Line, members: seq<Package>)
    requires Sane(members)
    ensures Quotes(EraseEdges(line, members)) == Quotes(line)
  {
    if members != [] {
      var init, last := members[..|members| - 1], members[|members| - 1];
      ErasingKeepsQuotes(line, init);
      PlainSpelling(members, last);
      QuotesOfWord("", Spelled(last), "");
      QuotesOfWord("", SpelledZero(last), "");
      assert "" + (InQuotes(Spelled(last)) + "") == InQuotes(Spelled(last));
      assert "" + (InQuotes(SpelledZero(last)) + "") == InQuotes(SpelledZero(last));
      ReplaceKeepsQuotes(EraseEdges(line, init), InQuotes(Spelled(last)), InQuotes(SpelledZero(last)));
    }
  }

  function BeforeQuote(s: string): (pre: string)
    requires Quotes(s) > 0
    ensures Plain(pre) && pre + [QUOTE] <= s && Quotes(s[|pre| + 1..]) == Quotes(s) - 1
  {
    if s[0] == QUOTE then "" else [s[0]] + BeforeQuote(s[1..])
  }

  lemma CutAtQuote(s: string) returns (pre: string, rest: string)
    requires Quotes(s) > 0
    ensures Plain(pre) && Quotes(rest) == Quotes(s) - 1 && s == pre + ([QUOTE] + rest)
  {
    pre := BeforeQuote(s);
    rest := s[|pre| + 1..];
  }

  lemma Quoted(word: string, post: string)
    ensures [QUOTE] + (word + ([QUOTE] + post)) == InQuotes(word) + post
  {
  }

  lemma TwoQuotes(s: string) returns (pre: string, word: string, post: string)
    requires Quotes(s) == 2
    ensures Plain(pre) && Plain(word) && Plain(post) && s == pre + (InQuotes(word) + post)
  {
    var rest;
    pre, rest := CutAtQuote(s);
    word, post := CutAtQuote(rest);
    PlainHasNoQuotes(post);
    Quoted(word, post);
  }

  lemma {:induction false} RunOf(w: string, rest: string)
    requires SaneText(w) || w == ""
    requires rest != "" && rest[0] == QUOTE
    ensures Run(w + rest) == |w|
  {
    if w == "" {
      assert w + rest == rest;
    } else {
      RunOf(w[1..], rest);
      assert (w + rest)[1..] == w[1..] + rest;
    }
  }

  lemma {:induction false} RunIsPlain(s: string)
    ensures QUOTE !in s[..Run(s)] && '\n' !in s[..Run(s)]
  {
    if s != "" && s[0] != QUOTE && s[0] != '\n' {
      RunIsPlain(s[1..]);
      assert s[..Run(s)] == [s[0]] + s[1..][..Run(s[1..])];
    }
  }

  /** The field lines are exactly the lines `key = "value"`. */
  lemma FieldShape(line: Line, key: string, v: string)
    requires Field(line, key) == Some(v)
    ensures SaneText(v) && exists post :: post in {"", "\n"} && line == (key + " = ") + (InQuotes(v) + post)
  {
    var s := line[|key + " = \""|..];
    RunIsPlain(s);
    var post := s[Run(s) + 1..];
    assert s == v + [QUOTE] + post;
    assert line == (key + " = ") + (InQuotes(v) + post);
  }

  lemma FieldOf(key: string, v: string, post: string)
    requires SaneText(v) && post in {"", "\n"}
    ensures Field((key + " = ") + (InQuotes(v) + post), key) == Some(v)
  {
    var line, tail := (key + " = ") + (InQuotes(v) + post), [QUOTE] + post;
    var s := line[|key + " = \""|..];
    assert s == v + tail;
    RunOf(v, tail);
    assert s[|v|] == QUOTE && s[|v| + 1..] == post && s[..|v|] == v;
  }

  /** Erasing edges keeps every field of an entry; its value changes like a word. */
  lemma FieldKept(line: Line, key: string, members: seq<Package>)
    requires Sane(members) && Plain(key)
    ensures Field(EraseEdges(line, members), key).Some? <==> Field(line, key).Some?
    ensures Field(line, key).Some? ==> Field(EraseEdges(line, members), key) == Some(NeutralWord(Field(line, key).value, members))
  {
    var erased := EraseEdges(line, members);
    ErasingKeepsQuotes(line, members);
    if Field(line, key).Some? {
      var v := Field(line, key).value;
      FieldErased(line, key, v, members);
    } else if Field(erased, key).Some? {
      var v := Field(erased, key).value;
      FieldShape(erased, key, v);
      FieldHasTwoQuotes(erased, key, v);
      FieldCameFromField(line, key, members, v);
    }
  }

  lemma SaneWord(word: string, members: seq<Package>)
    requires Sane(members)
    ensures SaneText(NeutralWord(word, members)) <==> SaneText(word)
  {
    NeutralWordMeaning(word, members);
    forall p | p in members
      ensures SaneText(Spelled(p)) && SaneText(SpelledZero(p))
    {
      assert Spelled(p) != "" && SpelledZero(p) != "";
    }
  }

  lemma FieldErased(line: Line, key: string, v: string, members: seq<Package>)
    requires Sane(members) && Plain(key) && Field(line, key) == Some(v)
    ensures Field(EraseEdges(line, members), key) == Some(NeutralWord(v, members))
  {
    FieldShape(line, key, v);
    var post :| post in {"", "\n"} && line == (key + " = ") + (InQuotes(v) + post);
    EraseWord(key + " = ", v, post, members);
    SaneWord(v, members);
    FieldOf(key, NeutralWord(v, members), post);
  }

  lemma FieldHasTwoQuotes(line: Line, key: string, v: string)
    requires Plain(key) && Field(line, key) == Some(v)
    ensures Quotes(line) == 2
  {
    FieldShape(line, key, v);
    var post :| post in {"", "\n"} && line == (key + " = ") + (InQuotes(v) + post);
    QuotesOfWord(key + " = ", v, post);
  }

  lemma SameWordLine(pre: string, word: string, post: string, pre': string, word': string, post': string)
    requires Plain(pre) && Plain(word) && Plain(pre') && Plain(word')
    requires pre + (InQuotes(word) + post) == pre' + (InQuotes(word') + post')
    ensures pre == pre' && word == word' && post == post'
  {
    Quoted(word, post);
    Quoted(word', post');
    FirstMark(pre, word + ([QUOTE] + post), pre', word' + ([QUOTE] + post'), QUOTE);
    FirstMark(word, post, word', post', QUOTE);
  }

  lemma FieldCameFromField(line: Line, key: string, members: seq<Package>, v: string)
    requires Sane(members) && Plain(key) && Field(EraseEdges(line, members), key) == Some(v) && Quotes(line) == 2
    ensures Field(line, key).Some?
  {
    var pre, word, post := TwoQuotes(line);
    EraseWord(pre, word, post, members);
    FieldShape(EraseEdges(line, members), key, v);
    var end :| end in {"", "\n"} && EraseEdges(line, members) == (key + " = ") + (InQuotes(v) + end);
    SameWordLine(pre, NeutralWord(word, members), post, key + " = ", v, end);
    SaneWord(word, members);
    FieldOf(key, word, post);
  }

  /** A line common to two trees, with one quoted word, keeps the recipes equal exactly
      when that word is a member with its version in both trees or in neither. */
  lemma CommonLineErasesAlike(pre: string, word: string, post: string, a: seq<Package>, b: seq<Package>)
    requires Plain(pre) && Plain(word) && Plain(post) && Sane(a) && Sane(b)
    ensures var line := pre + (InQuotes(word) + post);
      EraseEdges(line, a) == EraseEdges(line, b) <==> (RewrittenIn(word, a) <==> RewrittenIn(word, b))
  {
    EraseWord(pre, word, post, a);
    EraseWord(pre, word, post, b);
    FixedWordAgrees(word, a, b);
    if EraseEdges(pre + (InQuotes(word) + post), a) == EraseEdges(pre + (InQuotes(word) + post), b) {
      SameWordLine(pre, NeutralWord(word, a), post, pre, NeutralWord(word, b), post);
    }
  }

  /** A registry edge that happens to be spelled like a member with its version is taken
      for a workspace edge: after a bump of that member the recipe differs. */
  lemma RegistryEdgeIsMistaken(pre: string, post: string, p: Package, q: Package)
    requires Plain(pre) && Plain(post) && Sane([p]) && Sane([q])
    requires p.name == q.name && p.version != q.version && p.version != ZERO
    ensures var line := pre + (InQuotes(Spelled(p)) + post); EraseEdges(line, [p]) != EraseEdges(line, [q])
  {
    assert p in [p];
    PlainSpelling([p], p);
    CommonLineErasesAlike(pre, Spelled(p), post, [p], [q]);
    if Spelled(p) == Spelled(q) {
      SpellingIsUnique(p.name, p.version, q.name, q.version);
    }
  }
}
