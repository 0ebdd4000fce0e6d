/** What the dependency recipe does to directory names, manifests and lock entries, said in
    the characters and lines of the files (scripts/docker-dependency-recipe.py). */
module RecipeTexts {
  import opened Options
  import opened TextEdits
  import opened Manifests
  import opened Lockfile
  import opened PathRequirements
  import opened Recipe

  // ---- member directories ----

  /** A path of its components. */
  function Path(parts: seq<string>): string
    requires parts != []
  {
    if |parts| == 1 then parts[0] else parts[0] + "/" + Path(parts[1..])
  }

  lemma OneComponent(part: string)
    requires '/' !in part
    ensures NamesParent(part) <==> part == ".."
  {
    if NamesParent(part) {
      var i, j :| 0 <= i <= j <= |part| && IsComponent(part, i, j) && part[i..j] == "..";
      assert i == 0 && j == |part| && part[i..j] == part;
    }
    if part == ".." {
      assert part[0..2] == part && IsComponent(part, 0, 2);
    }
  }

  lemma ComponentBehind(part: string, rest: string, i: nat, j: nat)
    requires i <= j <= |rest|
    ensures var s, k := part + "/" + rest, |part| + 1;
      s[k + i..k + j] == rest[i..j] && (IsComponent(s, k + i, k + j) <==> IsComponent(rest, i, j))
  {
    var s, k := part + "/" + rest, |part| + 1;
    assert s[k + i..k + j] == rest[i..j];
    assert s[k - 1] == '/' && (i > 0 ==> s[k + i - 1] == rest[i - 1]) && (j < |rest| ==> s[k + j] == rest[j]);
  }

  lemma ParentInFrontOrBehind(part: string, rest: string)
    requires '/' !in part && NamesParent(part + "/" + rest)
    ensures part == ".." || NamesParent(rest)
  {
    var s, k := part + "/" + rest, |part| + 1;
    var i, j :| 0 <= i <= j <= |s| && IsComponent(s, i, j) && s[i..j] == "..";
    ComponentIsFirstOrBehind(part, rest, i, j);
    if i >= k {
      ComponentBehind(part, rest, i - k, j - k);
      assert IsComponent(rest, i - k, j - k) && rest[i - k..j - k] == "..";
    }
  }

  lemma ParentBehind(part: string, rest: string)
    requires NamesParent(rest)
    ensures NamesParent(part + "/" + rest)
  {
    var s, k := part + "/" + rest, |part| + 1;
    var i, j :| 0 <= i <= j <= |rest| && IsComponent(rest, i, j) && rest[i..j] == "..";
    ComponentBehind(part, rest, i, j);
    assert IsComponent(s, k + i, k + j) && s[k + i..k + j] == "..";
  }

  lemma OneMoreComponent(part: string, rest: string)
    requires '/' !in part
    ensures NamesParent(part + "/" + rest) <==> part == ".." || NamesParent(rest)
  {
    var s := part + "/" + rest;
    if NamesParent(s) {
      ParentInFrontOrBehind(part, rest);
    }
    if NamesParent(rest) {
      ParentBehind(part, rest);
    }
    if part == ".." {
      assert s[0..2] == part && IsComponent(s, 0, 2);
    }
  }

  lemma ComponentIsFirstOrBehind(part: string, rest: string, i: nat, j: nat)
    requires '/' !in part && i <= j <= |part + "/" + rest| && IsComponent(part + "/" + rest, i, j)
    ensures i > |part| || (i == 0 && j == |part| && (part + "/" + rest)[i..j] == part)
  {
    var s := part + "/" + rest;
    assert forall l :: 0 <= l < |part| ==> s[l] == part[l];
    assert s[|part|] == '/';
    if i <= |part| {
      assert i == 0;
      assert forall l :: 0 <= l < j ==> s[l] in s[i..j];
    }
  }

  lemma {:induction false} ParentsExactly(parts: seq<string>)
    requires parts != [] && forall p :: p in parts ==> '/' !in p
    ensures NamesParent(Path(parts)) <==> ".." in parts
  {
    if |parts| == 1 {
      OneComponent(parts[0]);
    } else {
      assert parts == [parts[0]] + parts[1..];
      ParentsExactly(parts[1..]);
      OneMoreComponent(parts[0], Path(parts[1..]));
    }
  }

  lemma {:induction false} CharsOfPath(parts: seq<string>, c: char)
    requires parts != [] && c != '/'
    ensures c in Path(parts) <==> exists p :: p in parts && c in p
  {
    if |parts| > 1 {
      assert parts == [parts[0]] + parts[1..];
      CharsOfPath(parts[1..], c);
    }
  }

  /** A member directory is accepted exactly when it is relative, has no component `..`, and
      none with a glob character. */
  lemma IsExplicitExactly(parts: seq<string>)
    requires parts != [] && forall p :: p in parts ==> '/' !in p
    ensures IsExplicit(Path(parts)) <==>
      && (|parts| > 1 ==> parts[0] != "")
      && (forall p :: p in parts ==> p != ".." && '*' !in p && '?' !in p && '[' !in p && ']' !in p)
  {
    ParentsExactly(parts);
    CharsOfPath(parts, '*');
    CharsOfPath(parts, '?');
    CharsOfPath(parts, '[');
    CharsOfPath(parts, ']');
    assert parts[0] in parts;
    assert parts[0] != "" ==> Path(parts)[0] == parts[0][0];
  }

  // ---- version assignments ----

  predicate Blank(s: string) {
    forall i :: 0 <= i < |s| ==> s[i] == ' ' || s[i] == '\t' || s[i] == '\r' || s[i] as int == 11 || s[i] as int == 12
  }

  predicate Assigns(line: Line, before: string, after: string, v: string, rest: string) {
    && Blank(before) && Blank(after) && v != "" && '"' !in v && '\n' !in v
    && line == "version" + (before + ("=" + (after + ("\"" + (v + ("\"" + rest))))))
  }

  /** The line opens with a version assignment, and `rest` follows it. */
  ghost predicate IsAssignment(line: Line, v: string, rest: string) {
    exists before, after :: Assigns(line, before, after, v, rest)
  }

  lemma {:induction false} BlankIsSkipped(x: string, s: string)
    requires Blank(x) && s != "" && !IsSpace(s[0])
    ensures SkipSpace(x + s) == s
  {
    if x == "" {
      assert x + s == s;
    } else {
      BlankIsSkipped(x[1..], s);
      assert (x + s)[1..] == x[1..] + s;
    }
  }

  lemma {:induction false} SkippedIsBlank(s: string) returns (x: string)
    ensures Blank(x) && s == x + SkipSpace(s)
  {
    x := "";
    if s != "" && IsSpace(s[0]) {
      var y := SkippedIsBlank(s[1..]);
      x := [s[0]] + y;
    }
  }

  lemma QuotedExactly(v: string, rest: string)
    requires v != "" && '"' !in v && '\n' !in v
    ensures QuotedString("\"" + (v + ("\"" + rest))) == Some((v, rest))
  {
    var s, open := "\"" + (v + ("\"" + rest)), v + ("\"" + rest);
    assert s[1..] == open && open[..|v|] == v && open[|v|..] == "\"" + rest && open[|v|..][1..] == rest;
    RunLength(open, |v|);
  }

  lemma QuotedShape(s: string)
    requires QuotedString(s).Some?
    ensures var (v, rest) := QuotedString(s).value;
      v != "" && '"' !in v && '\n' !in v && s == "\"" + (v + ("\"" + rest))
  {
    var open := s[1..];
    var n := Run(open);
    RunIsPlain(open);
    assert s == "\"" + open && open == open[..n] + open[n..] && open[n..] == "\"" + open[n..][1..];
  }

  lemma AssignmentIsVersion(line: Line, before: string, after: string, v: string, rest: string)
    requires Assigns(line, before, after, v, rest)
    ensures VersionParts(line) == Some((v, rest))
  {
    var value := "\"" + (v + ("\"" + rest));
    var equals := "=" + (after + value);
    assert line[7..] == before + equals && equals[1..] == after + value;
    BlankIsSkipped(before, equals);
    BlankIsSkipped(after, value);
    QuotedExactly(v, rest);
  }

  lemma VersionIsAssignment(line: Line)
    requires VersionParts(line).Some?
    ensures IsAssignment(line, VersionParts(line).value.0, VersionParts(line).value.1)
  {
    var (v, rest) := VersionParts(line).value;
    var behind := line[|KEY|..];
    var before := SkippedIsBlank(behind);
    var equals := SkipSpace(behind);
    var after := SkippedIsBlank(equals[1..]);
    QuotedShape(VersionStart(line).value);
    assert line == KEY + behind && equals == "=" + equals[1..];
    assert Assigns(line, before, after, v, rest);
  }

  /** The version lines are exactly those of the regular expression. */
  lemma VersionLineExactly(line: Line, v: string, rest: string)
    ensures VersionParts(line) == Some((v, rest)) <==> IsAssignment(line, v, rest)
  {
    if VersionParts(line) == Some((v, rest)) {
      VersionIsAssignment(line);
    }
    if IsAssignment(line, v, rest) {
      var before, after :| Assigns(line, before, after, v, rest);
      AssignmentIsVersion(line, before, after, v, rest);
    }
  }

  // ---- manifests ----

  /** The lines from `a` up to `b` are the first `[package]` section. */
  predicate IsPackageSection(lines: Text, a: nat, b: nat) {
    && a < b <= |lines| && lines[a] == "[package]\n"
    && (forall k :: 0 <= k < a ==> lines[k] != "[package]\n")
    && (forall k :: a < k < b ==> lines[k] == "" || lines[k][0] != '[')
    && (b < |lines| ==> lines[b] != "" && lines[b][0] == '[')
  }

  ghost predicate IsVersionLine(line: Line) {
    exists v, rest :: IsAssignment(line, v, rest)
  }

  lemma VersionLines(line: Line)
    ensures IsVersionLine(line) <==> IsVersion(line)
    ensures forall v, rest :: IsAssignment(line, v, rest) ==> Neutral(line) == "version = \"0.0.0\"" + rest
  {
    if IsVersion(line) {
      VersionIsAssignment(line);
    }
    forall v, rest | IsAssignment(line, v, rest)
      ensures VersionParts(line) == Some((v, rest))
    {
      VersionLineExactly(line, v, rest);
    }
  }

  lemma {:induction false} NoVersionsCounted(section: Text)
    ensures CountVersions(section) == 0 <==> forall k :: 0 <= k < |section| ==> !IsVersion(section[k])
  {
    if section != [] {
      NoVersionsCounted(section[..|section| - 1]);
    }
  }

  ghost predicate IsOnlyVersion(section: Text, k: int) {
    0 <= k < |section| && IsVersion(section[k]) && forall l :: 0 <= l < |section| && l != k ==> !IsVersion(section[l])
  }

  lemma {:induction false} OneVersionCounted(section: Text)
    ensures CountVersions(section) == 1 <==> exists k :: IsOnlyVersion(section, k)
  {
    if section != [] {
      var n := |section| - 1;
      var before := section[..n];
      OneVersionCounted(before);
      NoVersionsCounted(before);
      if CountVersions(section) == 1 {
        if IsVersion(section[n]) {
          assert IsOnlyVersion(section, n);
        } else {
          var k :| IsOnlyVersion(before, k);
          assert IsOnlyVersion(section, k);
        }
      }
      if k :| IsOnlyVersion(section, k) {
        assert k < n ==> IsOnlyVersion(before, k);
      }
    }
  }

  lemma SectionFound(lines: Text, a: nat, b: nat)
    requires IsPackageSection(lines, a, b)
    ensures Normalized(lines) == if CountVersions(lines[a..b]) == 1
      then Ok(lines[..a] + EditAll(lines[a..b]) + lines[b..]) else Err(NotOneVersion)
  {
    var before, section, after := lines[..a], lines[a..b], lines[b..];
    assert lines == before + section + after;
    assert section[0] == HEADER && forall k :: 0 < k < |section| ==> section[k] == lines[a + k];
    PackageSection(before, section, after);
  }

  /** The version of the manifest, and the only one: line `k` of the section assigns it. */
  ghost predicate IsItsVersion(lines: Text, a: nat, b: nat, k: int) {
    a < k < b <= |lines| && IsVersionLine(lines[k]) && forall l :: a < l < b && l != k ==> !IsVersionLine(lines[l])
  }

  lemma OnlyVersionIs(lines: Text, a: nat, b: nat, k: nat)
    requires IsPackageSection(lines, a, b) && a <= k < b
    ensures IsItsVersion(lines, a, b, k) <==> IsOnlyVersion(lines[a..b], k - a)
  {
    var section := lines[a..b];
    NoVersion(section[0]);
    forall l | 0 <= l < |section|
      ensures IsVersion(section[l]) <==> IsVersionLine(lines[a + l])
    {
      VersionLines(section[l]);
    }
    if IsItsVersion(lines, a, b, k) {
      forall l | 0 <= l < |section| && l != k - a
        ensures !IsVersion(section[l])
      {
        assert l > 0 ==> !IsVersionLine(lines[a + l]);
      }
    }
    if IsOnlyVersion(section, k - a) {
      forall l | a < l < b && l != k
        ensures !IsVersionLine(lines[l])
      {
        assert !IsVersion(section[l - a]);
      }
    }
  }

  lemma OneLineEdited(lines: Text, a: nat, b: nat, k: nat)
    requires IsPackageSection(lines, a, b) && a <= k < b && IsOnlyVersion(lines[a..b], k - a)
    ensures lines[..a] + EditAll(lines[a..b]) + lines[b..] == lines[k := Neutral(lines[k])]
  {
    var section := lines[a..b];
    forall l | 0 <= l < |section|
      ensures EditAll(section)[l] == if a + l == k then Neutral(lines[k]) else lines[a + l]
    {
      assert section[l] == lines[a + l];
    }
    StretchReplaced(lines, lines[k := Neutral(lines[k])], a, b, EditAll(section));
  }

  lemma StretchReplaced(s: Text, t: Text, a: nat, b: nat, x: Text)
    requires a <= b <= |s| == |t| && s[..a] == t[..a] && s[b..] == t[b..] && x == t[a..b]
    ensures s[..a] + x + s[b..] == t
  {
    assert t == t[..a] + t[a..b] + t[b..];
  }

  /** What becomes of a manifest, for every text: without the line `[package]` there is an
      error, and so without exactly one version assignment up to the next line that opens
      with a bracket; otherwise the assignment alone is replaced, and the rest of its line
      stays. */
  lemma ManifestExactly(lines: Text, a: nat, b: nat)
    requires "[package]\n" in lines ==> IsPackageSection(lines, a, b)
    ensures "[package]\n" !in lines ==> Normalized(lines) == Err(NoPackage)
    ensures forall k, v, rest :: IsItsVersion(lines, a, b, k) && "[package]\n" in lines && IsAssignment(lines[k], v, rest) ==>
      Normalized(lines) == Ok(lines[k := "version = \"0.0.0\"" + rest])
    ensures "[package]\n" in lines && (forall k :: !IsItsVersion(lines, a, b, k)) ==> Normalized(lines) == Err(NotOneVersion)
  {
    if "[package]\n" !in lines {
      AheadOfPackage(lines);
    } else {
      SectionFound(lines, a, b);
      OneVersionCounted(lines[a..b]);
      forall k, v, rest | IsItsVersion(lines, a, b, k) && IsAssignment(lines[k], v, rest)
        ensures Normalized(lines) == Ok(lines[k := "version = \"0.0.0\"" + rest])
      {
        OnlyVersionIs(lines, a, b, k);
        OneLineEdited(lines, a, b, k);
        VersionLines(lines[k]);
      }
      if k :| IsOnlyVersion(lines[a..b], k) {
        OnlyVersionIs(lines, a, b, a + k);
      }
    }
  }

  lemma {:induction false} FirstHeader(lines: Text) returns (a: nat)
    requires "[package]\n" in lines
    ensures a < |lines| && lines[a] == "[package]\n" && forall k :: 0 <= k < a ==> lines[k] != "[package]\n"
  {
    if lines[0] == "[package]\n" {
      a := 0;
    } else {
      a := FirstHeader(lines[1..]);
      a := a + 1;
      assert forall k :: 0 < k < a ==> lines[k] == lines[1..][k - 1];
    }
  }

  lemma {:induction false} SectionEnd(lines: Text, a: nat, b: nat) returns (e: nat)
    requires a < b <= |lines| && forall k :: a < k < b ==> lines[k] == "" || lines[k][0] != '['
    ensures b <= e <= |lines| && (forall k :: a < k < e ==> lines[k] == "" || lines[k][0] != '[')
    ensures e < |lines| ==> lines[e] != "" && lines[e][0] == '['
    decreases |lines| - b
  {
    if b < |lines| && (lines[b] == "" || lines[b][0] != '[') {
      e := SectionEnd(lines, a, b + 1);
    } else {
      e := b;
    }
  }

  /** The section is there whenever its header is. */
  lemma SectionExists(lines: Text)
    requires "[package]\n" in lines
    ensures exists a, b :: IsPackageSection(lines, a, b)
  {
    var a := FirstHeader(lines);
    var b := SectionEnd(lines, a, a + 1);
    assert IsPackageSection(lines, a, b);
  }

  // ---- members ----

  /** Nothing is wrong with the member, behind the ones before it. */
  predicate MemberPasses(ms: seq<Manifest>, i: nat)
    requires i < |ms|
  {
    var m := ms[i];
    && IsExplicit(m.dir) && PathsOk(m.toml) && m.version != None
    && !NameBefore(ms, i)
    && Normalized(m.text).Ok?
  }

  predicate NameBefore(ms: seq<Manifest>, i: nat)
    requires i < |ms|
  {
    exists j :: 0 <= j < i && ms[j].name == ms[i].name
  }

  /** The error of a member that does not pass: directory, path requirements, version or
      repeated name, text, in this order. */
  function FaultOf(m: Manifest, repeated: bool): Error {
    if !IsExplicit(m.dir) then NotExplicit(m.dir)
    else if !PathsOk(m.toml) then Error.VersionedPath
    else if m.version == None || repeated then NotUnique
    else if Normalized(m.text).Err? then Normalized(m.text).error
    else NoPackage
  }

  ghost predicate ArePassed(ms: seq<Manifest>, c: Collected) {
    && |c.packages| == |ms| == |c.manifests|
    && forall i :: 0 <= i < |ms| ==> IsPassed(ms[i], c.packages[i], c.manifests[i])
  }

  predicate IsPassed(m: Manifest, p: Package, file: File) {
    && p.name == m.name && m.version == Some(p.version)
    && file.dir == m.dir && Normalized(m.text) == Ok(file.text)
  }

  lemma NamesBefore(ms: seq<Manifest>, c: Collected, name: string)
    requires ArePassed(ms, c)
    ensures HasName(c.packages, name) <==> exists j :: 0 <= j < |ms| && ms[j].name == name
  {
    forall j | 0 <= j < |ms|
      ensures c.packages[j].name == ms[j].name
    {
      assert IsPassed(ms[j], c.packages[j], c.manifests[j]);
    }
    if j :| 0 <= j < |ms| && ms[j].name == name {
      assert c.packages[j] in c.packages;
    }
  }

  lemma OneMorePassed(before: seq<Manifest>, m: Manifest, c: Collected, d: Collected)
    requires ArePassed(before, c) && AddMember(c, m) == Ok(d)
    ensures ArePassed(before + [m], d)
  {
    forall i | 0 <= i < |before|
      ensures IsPassed((before + [m])[i], d.packages[i], d.manifests[i])
    {
      assert IsPassed(before[i], c.packages[i], c.manifests[i]);
    }
  }

  lemma MemberAdded(ms: seq<Manifest>, i: nat, c: Collected)
    requires i < |ms| && ArePassed(ms[..i], c)
    ensures MemberPasses(ms, i) ==> AddMember(c, ms[i]).Ok?
    ensures !MemberPasses(ms, i) ==> AddMember(c, ms[i]) == Err(FaultOf(ms[i], NameBefore(ms, i)))
  {
    NamesBefore(ms[..i], c, ms[i].name);
    assert forall j :: 0 <= j < i ==> ms[..i][j].name == ms[j].name;
  }

  lemma {:induction false} PassingMembers(ms: seq<Manifest>, i: nat)
    requires i <= |ms| && forall j :: 0 <= j < i ==> MemberPasses(ms, j)
    ensures Members(ms[..i]).Ok? && ArePassed(ms[..i], Members(ms[..i]).value)
  {
    if i > 0 {
      var n := i - 1;
      PassingMembers(ms, n);
      assert ms[..i][..n] == ms[..n] && ms[..i] == ms[..n] + [ms[n]];
      var c := Members(ms[..n]).value;
      MemberAdded(ms, n, c);
      OneMorePassed(ms[..n], ms[n], c, AddMember(c, ms[n]).value);
    }
  }

  lemma FaultStops(ms: seq<Manifest>, i: nat)
    requires i < |ms| && Members(ms[..i]).Ok? && AddMember(Members(ms[..i]).value, ms[i]).Err?
    ensures Members(ms) == Err(AddMember(Members(ms[..i]).value, ms[i]).error)
  {
    MembersStep(ms, i);
  }

  /** The first member that does not pass. */
  predicate IsFirstFault(ms: seq<Manifest>, i: int) {
    0 <= i < |ms| && !MemberPasses(ms, i) && forall j :: 0 <= j < i ==> MemberPasses(ms, j)
  }

  /** The member loop, for every list: when all members pass, it yields their names with
      versions and their edited texts, in order; otherwise the error of the first one that
      does not. */
  lemma MembersExactly(ms: seq<Manifest>)
    ensures (forall i :: 0 <= i < |ms| ==> MemberPasses(ms, i)) ==> Members(ms).Ok? && ArePassed(ms, Members(ms).value)
    ensures forall i :: IsFirstFault(ms, i) ==> Members(ms) == Err(FaultOf(ms[i], NameBefore(ms, i)))
  {
    assert ms[..|ms|] == ms;
    if forall i :: 0 <= i < |ms| ==> MemberPasses(ms, i) {
      PassingMembers(ms, |ms|);
    }
    forall i | IsFirstFault(ms, i)
      ensures Members(ms) == Err(FaultOf(ms[i], NameBefore(ms, i)))
    {
      PassingMembers(ms, i);
      MemberAdded(ms, i, Members(ms[..i]).value);
      FaultStops(ms, i);
    }
  }

  // ---- lock entries ----

  /** The line assigns the value to the key, with nothing behind it. */
  predicate IsField(line: Line, key: string, v: string) {
    && v != "" && '"' !in v && '\n' !in v
    && (line == (key + " = ") + (InQuotes(v) + "") || line == (key + " = ") + (InQuotes(v) + "\n"))
  }

  lemma FieldExactly(line: Line, key: string, v: string)
    ensures Field(line, key) == Some(v) <==> IsField(line, key, v)
  {
    if Field(line, key) == Some(v) {
      FieldShape(line, key, v);
    }
    if IsField(line, key, v) {
      var post :| post in {"", "\n"} && line == (key + " = ") + (InQuotes(v) + post);
      FieldOf(key, v, post);
    }
  }

  /** Line `i` is the first of the entry that assigns the key. */
  ghost predicate IsFirstField(block: Text, key: string, i: int, v: string) {
    && 0 <= i < |block| && IsField(block[i], key, v)
    && forall k, w :: 0 <= k < i ==> !IsField(block[k], key, w)
  }

  ghost predicate HasNoField(block: Text, key: string) {
    forall k, w :: 0 <= k < |block| ==> !IsField(block[k], key, w)
  }

  lemma FieldLine(line: Line, key: string)
    ensures Field(line, key).Some? <==> exists w :: IsField(line, key, w)
    ensures forall w :: IsField(line, key, w) ==> Field(line, key) == Some(w)
  {
    forall w
      ensures IsField(line, key, w) <==> Field(line, key) == Some(w)
    {
      FieldExactly(line, key, w);
    }
    if Field(line, key).Some? {
      assert IsField(line, key, Field(line, key).value);
    }
  }

  lemma FirstFieldExactly(block: Text, key: string)
    ensures forall i, v :: IsFirstField(block, key, i, v) ==> Find(block, key) == i && Value(block, key) == Some(v)
    ensures HasNoField(block, key) <==> Value(block, key).None?
  {
    forall k | 0 <= k < |block|
      ensures Field(block[k], key).Some? <==> exists w :: IsField(block[k], key, w)
      ensures forall w :: IsField(block[k], key, w) ==> Field(block[k], key) == Some(w)
    {
      FieldLine(block[k], key);
    }
    var n := Find(block, key);
    forall i, v | IsFirstField(block, key, i, v)
      ensures n == i
    {
      assert forall k :: 0 <= k < i ==> Field(block[k], key).None?;
    }
  }

  /** Without its version an entry reads as in every release. */
  ghost predicate IsReleased(block: Text, i: nat, members: seq<Package>, r: Text)
    requires i < |block|
  {
    && |r| == |block|
    && (Sane(members) ==>
          r[i] == "version = \"0.0.0\"" + if block[i] != "" && block[i][|block[i]| - 1] == '\n' then "\n" else "")
    && forall k :: 0 <= k < |block| && k != i ==> r[k] == EraseEdges(block[k], members)
  }

  lemma ReleasedLine(line: Line, members: seq<Package>)
    requires Sane(members)
    ensures EraseEdges(ZeroVersion(line), members) == ZeroVersion(line)
    ensures ZeroVersion(line) == "version = \"0.0.0\"" + if line != "" && line[|line| - 1] == '\n' then "\n" else ""
  {
    var post := if line != "" && line[|line| - 1] == '\n' then "\n" else "";
    var zero := "version = " + (InQuotes(ZERO) + post);
    assert ZeroVersion(line) == zero;
    EraseWord("version = ", ZERO, post, members);
    forall p | p in members
      ensures ZERO != Spelled(p)
    {
      assert Spelled(p)[|p.name|] == ' ';
    }
    NeutralWordMeaning(ZERO, members);
    assert InQuotes(ZERO) == "\"0.0.0\"";
  }

  /** What becomes of a lock entry with a name. From a registry only its edges change. A
      local one must be a member with the version of its manifest; then the line of that
      version changes, and the edges. Without a name, or a version where it is needed, the
      lock file is rejected. */
  lemma EntryExactly(block: Text, members: seq<Package>)
    ensures HasNoField(block, "name") ==> EraseBlock(block, members) == Err(LockUnreadable)
    ensures forall j, n :: IsFirstField(block, "name", j, n) && !HasNoField(block, "source") ==>
      EraseBlock(block, members) == Ok(EraseAll(block, members))
    ensures forall j, n :: IsFirstField(block, "name", j, n) && HasNoField(block, "source") && HasNoField(block, "version") ==>
      EraseBlock(block, members) == Err(LockUnreadable)
    ensures forall j, n, i, v ::
      IsFirstField(block, "name", j, n) && HasNoField(block, "source") && IsFirstField(block, "version", i, v) ==>
      if Package(n, v) !in members then EraseBlock(block, members) == Err(LockMismatch(n))
      else EraseBlock(block, members).Ok? && IsReleased(block, i, members, EraseBlock(block, members).value)
  {
    FirstFieldExactly(block, "name");
    FirstFieldExactly(block, "source");
    FirstFieldExactly(block, "version");
    forall j, n, i, v |
      && IsFirstField(block, "name", j, n) && HasNoField(block, "source") && IsFirstField(block, "version", i, v)
      && Package(n, v) in members
      ensures EraseBlock(block, members).Ok? && IsReleased(block, i, members, EraseBlock(block, members).value)
    {
      if Sane(members) {
        ReleasedLine(block[i], members);
      }
    }
  }

  // ---- the whole lock file ----

  predicate OpensEntry(line: Line) {
    |line| >= 11 && line[..11] == "[[package]]"
  }

  /** An entry runs from its opening line up to the next one. */
  predicate AreEntries(head: Text, entries: seq<Text>) {
    && (forall k :: 0 <= k < |head| ==> !OpensEntry(head[k]))
    && (forall e :: e in entries ==>
          e != [] && OpensEntry(e[0]) && forall k :: 0 < k < |e| ==> !OpensEntry(e[k]))
  }

  lemma OpeningLine(line: Line)
    ensures OpensEntry(line) <==> OpensBlock(line)
  {
    assert |"[[package]]"| == 11;
  }

  lemma EntriesAreSections(head: Text, entries: seq<Text>)
    requires AreEntries(head, entries)
    ensures Split(Join([head] + entries), OpensBlock) == [head] + entries
  {
    var blocks := [head] + entries;
    forall i | 0 <= i < |blocks|
      ensures IsSection(blocks[i], i == 0, OpensBlock)
    {
      forall k | 0 <= k < |blocks[i]|
        ensures OpensBlock(blocks[i][k]) <==> OpensEntry(blocks[i][k])
      {
        OpeningLine(blocks[i][k]);
      }
      assert i > 0 ==> blocks[i] in entries;
    }
    SplitJoin(blocks, OpensBlock);
  }

  /** The entry is the local one of that name. */
  ghost predicate IsLocalEntry(e: Text, name: string) {
    HasNoField(e, "source") && exists j: nat :: IsFirstField(e, "name", j, name)
  }

  lemma LocalNameExactly(e: Text, name: string)
    ensures name in LocalName(e) <==> IsLocalEntry(e, name)
  {
    FirstFieldExactly(e, "source");
    FirstFieldExactly(e, "name");
    if name in LocalName(e) {
      var j := Find(e, "name");
      FieldExactly(e[j], "name", name);
      forall k, w | 0 <= k < j
        ensures !IsField(e[k], "name", w)
      {
        FieldExactly(e[k], "name", w);
      }
      assert IsFirstField(e, "name", j, name);
    }
  }

  /** The entries are erased one by one, behind a head that stays. */
  ghost predicate AreErased(head: Text, entries: seq<Text>, members: seq<Package>, l: Locked) {
    && |l.blocks| == |entries| + 1 && l.blocks[0] == head
    && (forall i :: 0 <= i < |entries| ==> EraseBlock(entries[i], members) == Ok(l.blocks[i + 1]))
    && (forall name :: name in l.found <==> exists i :: 0 <= i < |entries| && IsLocalEntry(entries[i], name))
  }

  lemma HeadStays(head: Text, members: seq<Package>)
    requires AreEntries(head, [])
    ensures Blocks([head], members) == Ok(Locked([head], {}))
  {
    assert [head][..0] == [] && Blocks([], members) == Ok(Locked([], {}));
    if head != [] {
      OpeningLine(head[0]);
    }
    assert !IsEntry(head) && [] + [head] == [head];
  }

  lemma OneMoreErased(head: Text, before: seq<Text>, e: Text, members: seq<Package>, l: Locked, erased: Text)
    requires AreErased(head, before, members, l) && EraseBlock(e, members) == Ok(erased)
    ensures AreErased(head, before + [e], members, Locked(l.blocks + [erased], l.found + LocalName(e)))
  {
    var entries := before + [e];
    forall name
      ensures name in l.found + LocalName(e) <==> exists i :: 0 <= i < |entries| && IsLocalEntry(entries[i], name)
    {
      LocalNameExactly(e, name);
      assert entries[|before|] == e && forall i :: 0 <= i < |before| ==> entries[i] == before[i];
    }
  }

  ghost predicate AllPassed(head: Text, entries: seq<Text>, members: seq<Package>) {
    && Blocks([head] + entries, members).Ok?
    && AreErased(head, entries, members, Blocks([head] + entries, members).value)
  }

  lemma NoEntryPassed(head: Text, members: seq<Package>)
    requires AreEntries(head, [])
    ensures AllPassed(head, [], members)
  {
    HeadStays(head, members);
    assert [head] + [] == [head];
  }

  /** An entry that is not rejected. */
  predicate Enters(e: Text, members: seq<Package>) {
    e != [] && OpensEntry(e[0]) && EraseBlock(e, members).Ok?
  }

  lemma {:induction false} PassingEntries(head: Text, entries: seq<Text>, members: seq<Package>, i: nat)
    requires AreEntries(head, []) && i <= |entries|
    requires forall j :: 0 <= j < i ==> Enters(entries[j], members)
    ensures AllPassed(head, entries[..i], members)
  {
    if i == 0 {
      NoEntryPassed(head, members);
      assert entries[..0] == [];
    } else {
      PassingEntries(head, entries, members, i - 1);
      NextPasses(head, entries, members, i);
    }
  }

  lemma NextPasses(head: Text, entries: seq<Text>, members: seq<Package>, i: nat)
    requires 0 < i <= |entries| && AllPassed(head, entries[..i - 1], members) && Enters(entries[i - 1], members)
    ensures AllPassed(head, entries[..i], members)
  {
    OneMorePasses(head, entries[..i - 1], entries[i - 1], members);
    assert entries[..i] == entries[..i - 1] + [entries[i - 1]];
  }

  lemma OneMorePasses(head: Text, before: seq<Text>, e: Text, members: seq<Package>)
    requires AllPassed(head, before, members) && Enters(e, members)
    ensures AllPassed(head, before + [e], members)
  {
    OneMoreBlock(head, before, e, members);
    OneMoreErased(head, before, e, members, Blocks([head] + before, members).value, EraseBlock(e, members).value);
  }

  lemma EntriesEnter(head: Text, entries: seq<Text>, members: seq<Package>, i: nat)
    requires AreEntries(head, entries) && i <= |entries|
    requires forall j :: 0 <= j < i ==> EraseBlock(entries[j], members).Ok?
    ensures AreEntries(head, []) && forall j :: 0 <= j < i ==> Enters(entries[j], members)
  {
    forall j | 0 <= j < i
      ensures Enters(entries[j], members)
    {
      assert entries[j] in entries;
    }
  }

  lemma OneMoreBlock(head: Text, before: seq<Text>, e: Text, members: seq<Package>)
    requires Blocks([head] + before, members).Ok? && e != [] && OpensEntry(e[0])
    ensures var l := Blocks([head] + before, members).value;
      Blocks([head] + (before + [e]), members) ==
      match EraseBlock(e, members)
      case Err(error) => Err(error)
      case Ok(erased) => Ok(Locked(l.blocks + [erased], l.found + LocalName(e)))
  {
    var blocks := [head] + (before + [e]);
    assert blocks[..|blocks| - 1] == [head] + before && blocks[|blocks| - 1] == e;
    OpeningLine(e[0]);
  }

  lemma RejectedEntry(head: Text, entries: seq<Text>, members: seq<Package>, i: nat)
    requires AreEntries(head, entries) && i < |entries| && EraseBlock(entries[i], members).Err?
    requires forall j :: 0 <= j < i ==> EraseBlock(entries[j], members).Ok?
    ensures Blocks([head] + entries, members) == Err(EraseBlock(entries[i], members).error)
  {
    EntriesEnter(head, entries, members, i);
    PassingEntries(head, entries, members, i);
    assert entries[i] in entries;
    RejectionStops(head, entries, members, i);
  }

  lemma RejectionStops(head: Text, entries: seq<Text>, members: seq<Package>, i: nat)
    requires i < |entries| && EraseBlock(entries[i], members).Err? && entries[i] != [] && OpensEntry(entries[i][0])
    requires Blocks([head] + entries[..i], members).Ok?
    ensures Blocks([head] + entries, members) == Err(EraseBlock(entries[i], members).error)
  {
    var blocks := [head] + entries;
    OneMoreBlock(head, entries[..i], entries[i], members);
    assert blocks[..i + 1] == [head] + entries[..i] && blocks[..i + 2] == [head] + (entries[..i] + [entries[i]]);
    BlocksStep(blocks, i + 1, members);
  }

  /** The entry is the first that is rejected. */
  predicate IsFirstRejected(entries: seq<Text>, members: seq<Package>, i: int) {
    && 0 <= i < |entries| && EraseBlock(entries[i], members).Err?
    && forall j :: 0 <= j < i ==> EraseBlock(entries[j], members).Ok?
  }

  ghost predicate AllAreLocked(entries: seq<Text>, members: seq<Package>) {
    forall p :: p in members ==> exists i :: 0 <= i < |entries| && IsLocalEntry(entries[i], p.name)
  }

  /** The lock file, for every text: the first entry that is rejected gives the error;
      without one, a member that has no local entry is missing; and otherwise the result is
      the text with every entry replaced by its erased form. */
  lemma LockExactly(head: Text, entries: seq<Text>, members: seq<Package>)
    requires AreEntries(head, entries)
    ensures var result := Lock(Join([head] + entries), members);
      && (forall i :: IsFirstRejected(entries, members, i) ==> result == Err(EraseBlock(entries[i], members).error))
      && (forall erased :: IsErasedForm(entries, members, erased) ==>
            result == if AllAreLocked(entries, members) then Ok(Join([head] + erased)) else Err(MissingFromLock))
  {
    EntriesAreSections(head, entries);
    forall i | IsFirstRejected(entries, members, i)
      ensures Lock(Join([head] + entries), members) == Err(EraseBlock(entries[i], members).error)
    {
      RejectedEntry(head, entries, members, i);
    }
    forall erased | IsErasedForm(entries, members, erased)
      ensures Lock(Join([head] + entries), members) ==
        if AllAreLocked(entries, members) then Ok(Join([head] + erased)) else Err(MissingFromLock)
    {
      EntriesPass(head, entries, members, erased);
    }
  }

  lemma EntriesPass(head: Text, entries: seq<Text>, members: seq<Package>, erased: seq<Text>)
    requires AreEntries(head, entries) && IsErasedForm(entries, members, erased)
    requires Split(Join([head] + entries), OpensBlock) == [head] + entries
    ensures Lock(Join([head] + entries), members) ==
      if AllAreLocked(entries, members) then Ok(Join([head] + erased)) else Err(MissingFromLock)
  {
    EntriesEnter(head, entries, members, |entries|);
    PassingEntries(head, entries, members, |entries|);
    assert entries[..|entries|] == entries;
    var l := Blocks([head] + entries, members).value;
    ErasedFormIs(head, entries, members, erased, l);
    AllFoundExactly(head, entries, members, l);
    LockOf(Join([head] + entries), members, l);
  }

  lemma LockOf(lock: Text, members: seq<Package>, l: Locked)
    requires Blocks(Split(lock, OpensBlock), members) == Ok(l)
    ensures Lock(lock, members) ==
      if forall p :: p in members ==> p.name in l.found then Ok(Join(l.blocks)) else Err(MissingFromLock)
  {
  }

  lemma ErasedFormIs(head: Text, entries: seq<Text>, members: seq<Package>, erased: seq<Text>, l: Locked)
    requires AreErased(head, entries, members, l) && IsErasedForm(entries, members, erased)
    ensures l.blocks == [head] + erased
  {
    forall i | 0 <= i < |entries|
      ensures l.blocks[i + 1] == erased[i]
    {
      assert EraseBlock(entries[i], members) == Ok(erased[i]);
    }
  }

  lemma AllFoundExactly(head: Text, entries: seq<Text>, members: seq<Package>, l: Locked)
    requires AreErased(head, entries, members, l)
    ensures (forall p :: p in members ==> p.name in l.found) <==> AllAreLocked(entries, members)
  {
  }

  predicate IsErasedForm(entries: seq<Text>, members: seq<Package>, erased: seq<Text>) {
    |erased| == |entries| && forall i :: 0 <= i < |entries| ==> EraseBlock(entries[i], members) == Ok(erased[i])
  }

  // ---- the recipe ----

  /** The program looks at the workspace manifest, then at the members, then at the lock
      file, and writes the workspace manifest as it is. */
  lemma RecipeExactly(s: Source, c: Collected)
    requires Members(s.members).Ok? ==> c == Members(s.members).value
    ensures !PathsOk(s.rootToml) ==> RecipeOf(s) == Err(Error.VersionedPath)
    ensures PathsOk(s.rootToml) && Members(s.members).Err? ==> RecipeOf(s) == Err(Members(s.members).error)
    ensures PathsOk(s.rootToml) && ArePassed(s.members, c) && Members(s.members).Ok? ==>
      match Lock(s.lock, c.packages)
      case Err(e) => RecipeOf(s) == Err(e)
      case Ok(lock) =>
        && RecipeOf(s).Ok? && RecipeOf(s).value.root == s.root && RecipeOf(s).value.lock == lock
        && |RecipeOf(s).value.manifests| == |s.members|
        && forall i :: 0 <= i < |s.members| ==>
             IsPassed(s.members[i], c.packages[i], RecipeOf(s).value.manifests[i])
  {
  }
}
