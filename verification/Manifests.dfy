/** Erasing the version of a package manifest
    (scripts/docker-dependency-recipe.py, `normalize_package`). */
module Manifests {
  import opened Options
  import opened TextEdits

  const HEADER: Line := "[package]\n"
  const KEY: string := "version"
  const NEUTRAL: string := "version = \"0.0.0\""

  datatype Error =
    | VersionedPath | NotExplicit(dir: string) | NotUnique | NoPackage | NotOneVersion
    | LockUnreadable | LockMismatch(name: string) | MissingFromLock

  predicate Opens(line: Line) {
    line != "" && line[0] == '['
  }

  // ---- version lines ----

  predicate IsSpace(c: char) {
    c as int in {9, 11, 12, 13, 32}
  }

  function SkipSpace(s: string): string {
    if s != "" && IsSpace(s[0]) then SkipSpace(s[1..]) else s
  }

  function AfterChar(s: string, c: char): Option<string> {
    if s != "" && s[0] == c then Some(s[1..]) else None
  }

  /** The length of the text up to a quote or the end of the line. */
  function Run(s: string): (n: nat)
    ensures n <= |s|
  {
    if s == "" || s[0] == QUOTE || s[0] == '\n' then 0 else 1 + Run(s[1..])
  }

  /** The nonempty quoted string at the start, and what follows it. */
  function QuotedString(s: string): Option<(string, string)> {
    var open := AfterChar(s, QUOTE);
    if open.None? || Run(open.value) == 0 then None
    else
      var rest := AfterChar(open.value[Run(open.value)..], QUOTE);
      if rest.None? then None else Some((open.value[..Run(open.value)], rest.value))
  }

  /** Where the value of a version assignment at the start of a line begins. */
  function VersionStart(line: Line): Option<string> {
    if !(KEY <= line) then None
    else
      var equals := AfterChar(SkipSpace(line[|KEY|..]), '=');
      if equals.None? then None else Some(SkipSpace(equals.value))
  }

  function VersionParts(line: Line): Option<(string, string)> {
    if VersionStart(line).None? then None else QuotedString(VersionStart(line).value)
  }

  /** What follows a version assignment at the start of a line, if there is one. */
  function VersionRest(line: Line): Option<string> {
    if VersionParts(line).Some? then Some(VersionParts(line).value.1) else None
  }

  predicate IsVersion(line: Line) {
    VersionRest(line).Some?
  }

  function Neutral(line: Line): Line {
    if IsVersion(line) then NEUTRAL + VersionRest(line).value else line
  }

  lemma VersionLinesOpenNothing(line: Line)
    requires IsVersion(line)
    ensures !Opens(line) && line != HEADER
  {
    assert line[0] == KEY[0];
  }

  lemma {:induction false} RunLength(s: string, n: nat)
    requires n < |s| && s[n] == QUOTE && forall i :: 0 <= i < n ==> s[i] != QUOTE && s[i] != '\n'
    ensures Run(s) == n
  {
    if n > 0 {
      RunLength(s[1..], n - 1);
    }
  }

  lemma NeutralStart(rest: string)
    ensures VersionStart(NEUTRAL + rest) == Some("\"0.0.0\"" + rest)
  {
    var line := NEUTRAL + rest;
    assert line[7..] == " = \"0.0.0\"" + rest && line[8..] == "= \"0.0.0\"" + rest;
    assert line[9..] == " \"0.0.0\"" + rest && line[10..] == "\"0.0.0\"" + rest;
    assert SkipSpace(line[7..]) == line[8..] by {
      assert line[7..][1..] == line[8..];
    }
    assert SkipSpace(line[9..]) == line[10..] by {
      assert line[9..][1..] == line[10..];
    }
    assert line[8..][1..] == line[9..];
  }

  lemma QuotedZero(rest: string)
    ensures QuotedString("\"0.0.0\"" + rest) == Some(("0.0.0", rest))
  {
    var s, value := "\"0.0.0\"" + rest, "0.0.0\"" + rest;
    assert s[1..] == value;
    RunLength(value, 5);
    assert value[..5] == "0.0.0" && value[5..] == "\"" + rest && value[5..][1..] == rest;
  }

  lemma NeutralAgain(rest: string)
    ensures VersionParts(NEUTRAL + rest) == Some(("0.0.0", rest))
    ensures VersionRest(NEUTRAL + rest) == Some(rest)
  {
    NeutralStart(rest);
    QuotedZero(rest);
  }

  // ---- one pass over a manifest ----

  datatype Phase = Ahead | Inside | Past

  function Next(p: Phase, line: Line): Phase {
    match p
    case Ahead => if line == HEADER then Inside else Ahead
    case Inside => if Opens(line) then Past else Inside
    case Past => Past
  }

  function PhaseAfter(lines: Text): Phase {
    if lines == [] then Ahead else Next(PhaseAfter(lines[..|lines| - 1]), lines[|lines| - 1])
  }

  /** A version line of the first `[package]` section. */
  predicate Erasable(p: Phase, line: Line) {
    p == Inside && IsVersion(line)
  }

  function EditedIn(p: Phase, line: Line): Line {
    if Erasable(p, line) then Neutral(line) else line
  }

  function Edited(lines: Text): Text {
    if lines == [] then []
    else
      var before, last := lines[..|lines| - 1], lines[|lines| - 1];
      Edited(before) + [EditedIn(PhaseAfter(before), last)]
  }

  function Count(lines: Text): nat {
    if lines == [] then 0
    else
      var before, last := lines[..|lines| - 1], lines[|lines| - 1];
      Count(before) + if Erasable(PhaseAfter(before), last) then 1 else 0
  }

  function Normalized(lines: Text): Result<Text, Error> {
    if PhaseAfter(lines) == Ahead then Err(NoPackage)
    else if Count(lines) != 1 then Err(NotOneVersion)
    else Ok(Edited(lines))
  }

  // ---- the section-wise editor ----

  /** `re.subn` over a section. */
  function EditAll(section: Text): (edited: Text)
    ensures |edited| == |section| && forall k :: 0 <= k < |section| ==> edited[k] == Neutral(section[k])
  {
    seq(|section|, k requires 0 <= k < |section| => Neutral(section[k]))
  }

  function CountVersions(section: Text): nat {
    if section == [] then 0
    else CountVersions(section[..|section| - 1]) + if IsVersion(section[|section| - 1]) then 1 else 0
  }

  lemma StepFacts(before: Text, line: Line)
    ensures PhaseAfter(before + [line]) == Next(PhaseAfter(before), line)
    ensures Edited(before + [line]) == Edited(before) + [EditedIn(PhaseAfter(before), line)]
    ensures Count(before + [line]) == Count(before) + if Erasable(PhaseAfter(before), line) then 1 else 0
  {
    assert (before + [line])[..|before|] == before;
  }

  lemma {:induction false} AheadOfPackage(lines: Text)
    requires HEADER !in lines
    ensures PhaseAfter(lines) == Ahead && Edited(lines) == lines && Count(lines) == 0
  {
    if lines != [] {
      var before, last := lines[..|lines| - 1], lines[|lines| - 1];
      AheadOfPackage(before);
      assert last in lines && before + [last] == lines;
    }
  }

  lemma StepInside(before: Text, line: Line)
    requires PhaseAfter(before) == Inside && !Opens(line)
    ensures PhaseAfter(before + [line]) == Inside
    ensures Edited(before + [line]) == Edited(before) + [Neutral(line)]
    ensures Count(before + [line]) == Count(before) + if IsVersion(line) then 1 else 0
  {
    StepFacts(before, line);
  }

  lemma EditAllSnoc(section: Text, line: Line)
    ensures EditAll(section + [line]) == EditAll(section) + [Neutral(line)]
    ensures CountVersions(section + [line]) == CountVersions(section) + if IsVersion(line) then 1 else 0
  {
    assert (section + [line])[..|section|] == section;
  }

  lemma {:induction false} InsidePackage(before: Text, body: Text)
    requires PhaseAfter(before) == Inside && forall k :: 0 <= k < |body| ==> !Opens(body[k])
    ensures PhaseAfter(before + body) == Inside
    ensures Edited(before + body) == Edited(before) + EditAll(body)
    ensures Count(before + body) == Count(before) + CountVersions(body)
  {
    if body == [] {
      assert before + body == before;
    } else {
      var init, last := body[..|body| - 1], body[|body| - 1];
      InsidePackage(before, init);
      assert body == init + [last];
      InsideExtended(before, init, last);
    }
  }

  lemma InsideExtended(before: Text, init: Text, last: Line)
    requires PhaseAfter(before + init) == Inside && !Opens(last)
    requires Edited(before + init) == Edited(before) + EditAll(init)
    requires Count(before + init) == Count(before) + CountVersions(init)
    ensures PhaseAfter(before + (init + [last])) == Inside
    ensures Edited(before + (init + [last])) == Edited(before) + EditAll(init + [last])
    ensures Count(before + (init + [last])) == Count(before) + CountVersions(init + [last])
  {
    Regroup(before, init, [last]);
    StepInside(before + init, last);
    EditAllSnoc(init, last);
    Regroup(Edited(before), EditAll(init), [Neutral(last)]);
  }

  lemma Regroup(x: Text, y: Text, z: Text)
    ensures (x + y) + z == x + (y + z)
  {
  }

  lemma {:induction false} PastPackage(before: Text, rest: Text)
    requires PhaseAfter(before) == Past || (PhaseAfter(before) == Inside && (rest == [] || Opens(rest[0])))
    ensures PhaseAfter(before + rest) != Ahead
    ensures rest != [] ==> PhaseAfter(before + rest) == Past
    ensures Edited(before + rest) == Edited(before) + rest && Count(before + rest) == Count(before)
  {
    if rest == [] {
      assert before + rest == before;
    } else {
      var init, last := rest[..|rest| - 1], rest[|rest| - 1];
      PastPackage(before, init);
      assert before + rest == (before + init) + [last];
      StepFacts(before + init, last);
      if IsVersion(last) {
        VersionLinesOpenNothing(last);
      }
    }
  }

  lemma {:induction false} NoHeaderBefore(sections: seq<Text>, i: nat)
    requires Sectioned(sections, Opens) && i <= |sections|
    requires forall j :: 0 <= j < i ==> sections[j] == [] || sections[j][0] != HEADER
    ensures HEADER !in Join(sections[..i])
  {
    if i > 0 {
      NoHeaderBefore(sections, i - 1);
      assert sections[..i][..i - 1] == sections[..i - 1];
      assert IsSection(sections[i - 1], i - 1 == 0, Opens);
      assert Opens(HEADER);
    }
  }

  /** The first `[package]` section decides: with the text before it, its edited form
      and the untouched text behind it. */
  lemma PackageSection(before: Text, section: Text, after: Text)
    requires HEADER !in before && section != [] && section[0] == HEADER
    requires forall k :: 0 < k < |section| ==> !Opens(section[k])
    requires after == [] || Opens(after[0])
    ensures PhaseAfter(before + section + after) != Ahead
    ensures Edited(before + section + after) == before + EditAll(section) + after
    ensures Count(before + section + after) == CountVersions(section)
  {
    PackageBody(before, section);
    PastPackage(before + section, after);
  }

  lemma PackageBody(before: Text, section: Text)
    requires HEADER !in before && section != [] && section[0] == HEADER
    requires forall k :: 0 < k < |section| ==> !Opens(section[k])
    ensures PhaseAfter(before + section) == Inside
    ensures Edited(before + section) == before + EditAll(section)
    ensures Count(before + section) == CountVersions(section)
  {
    var body := section[1..];
    assert [HEADER] + body == section;
    PackageHeader(before);
    InsidePackage(before + [HEADER], body);
    HeaderIsKept(body);
    Regroup(before, [HEADER], body);
    Regroup(before, [HEADER], EditAll(body));
  }

  lemma PackageHeader(before: Text)
    requires HEADER !in before
    ensures PhaseAfter(before + [HEADER]) == Inside
    ensures Edited(before + [HEADER]) == before + [HEADER] && Count(before + [HEADER]) == 0
  {
    AheadOfPackage(before);
    StepFacts(before, HEADER);
  }

  lemma HeaderIsKept(body: Text)
    ensures EditAll([HEADER] + body) == [HEADER] + EditAll(body)
    ensures CountVersions([HEADER] + body) == CountVersions(body)
  {
    NoVersion(HEADER);
    FirstLineKept(HEADER, body);
    FirstLineUncounted(HEADER, body);
  }

  lemma NoVersion(line: Line)
    requires line == HEADER
    ensures !IsVersion(line)
  {
    if IsVersion(line) {
      VersionLinesOpenNothing(line);
    }
  }

  lemma FirstLineKept(line: Line, body: Text)
    requires !IsVersion(line)
    ensures EditAll([line] + body) == [line] + EditAll(body)
  {
  }

  lemma {:induction false} FirstLineUncounted(line: Line, body: Text)
    requires !IsVersion(line)
    ensures CountVersions([line] + body) == CountVersions(body)
  {
    if body == [] {
      assert [line] + body == [] + [line];
      EditAllSnoc([], line);
    } else {
      var init, last := body[..|body| - 1], body[|body| - 1];
      FirstLineUncounted(line, init);
      assert [line] + body == ([line] + init) + [last] && body == init + [last];
      EditAllSnoc([line] + init, last);
      EditAllSnoc(init, last);
    }
  }

  lemma {:induction false} JoinRest(sections: seq<Text>, i: nat)
    requires Sectioned(sections, Opens) && i < |sections|
    ensures Join(sections[..i + 1]) <= Join(sections)
    ensures var after := Join(sections)[|Join(sections[..i + 1])|..]; after == [] || Opens(after[0])
    decreases |sections|
  {
    var n := |sections| - 1;
    assert sections[..n] + [sections[n]] == sections;
    if i == n {
      assert sections[..i + 1] == sections;
    } else {
      JoinRest(sections[..n], i);
      assert sections[..n][..i + 1] == sections[..i + 1];
      assert IsSection(sections[n], false, Opens);
    }
  }

  /** Replacing one section replaces its stretch of the text. */
  lemma {:induction false} JoinUpdate(sections: seq<Text>, i: nat, section: Text)
    requires i < |sections|
    ensures Join(sections[..i + 1]) == Join(sections[..i]) + sections[i]
    ensures |Join(sections[..i])| + |sections[i]| <= |Join(sections)|
    ensures Join(sections[i := section]) ==
            Join(sections[..i]) + section + Join(sections)[|Join(sections[..i])| + |sections[i]|..]
    decreases |sections|
  {
    var n := |sections| - 1;
    assert sections[..i + 1][..i] == sections[..i];
    if i == n {
      assert sections[i := section][..n] == sections[..n];
      assert sections[..i + 1] == sections;
    } else {
      JoinUpdate(sections[..n], i, section);
      assert sections[..n][..i] == sections[..i];
      assert sections[i := section][..n] == sections[..n][i := section];
    }
  }

  /** The editor over sections computes what one pass over the lines computes. */
  method NormalizePackage(text: Text) returns (result: Result<Text, Error>)
    ensures result == Normalized(text)
  {
    SplitMeaning(text, Opens);
    var sections := Split(text, Opens);
    for index := 0 to |sections|
      invariant forall j :: 0 <= j < index ==> sections[j] == [] || sections[j][0] != HEADER
    {
      var section := sections[index];
      if section != [] && section[0] == HEADER {
        SectionDecides(text, sections, index);
        sections := sections[index := EditAll(section)];
        if CountVersions(section) != 1 {
          return Err(NotOneVersion);
        }
        return Ok(Join(sections));
      }
    }
    NoHeaderBefore(sections, |sections|);
    assert sections[..|sections|] == sections;
    AheadOfPackage(text);
    result := Err(NoPackage);
  }

  lemma SectionDecides(text: Text, sections: seq<Text>, i: nat)
    requires Sectioned(sections, Opens) && Join(sections) == text && i < |sections|
    requires forall j :: 0 <= j < i ==> sections[j] == [] || sections[j][0] != HEADER
    requires sections[i] != [] && sections[i][0] == HEADER
    ensures Normalized(text) ==
      if CountVersions(sections[i]) == 1 then Ok(Join(sections[i := EditAll(sections[i])])) else Err(NotOneVersion)
  {
    NoHeaderBefore(sections, i);
    JoinRest(sections, i);
    JoinUpdate(sections, i, EditAll(sections[i]));
    assert IsSection(sections[i], i == 0, Opens);
    var before, after := Join(sections[..i]), text[|Join(sections[..i + 1])|..];
    PackageSection(before, sections[i], after);
    Cut(text, before + sections[i]);
  }

  lemma Cut(text: Text, prefix: Text)
    requires prefix <= text
    ensures text == prefix + text[|prefix|..]
  {
  }

  // ---- what is erased, and what is not ----

  /** The two lines agree, or both assign a version in the `[package]` section and
      agree behind it. */
  predicate SameButVersion(a: Text, b: Text, k: nat)
    requires k < |a| && k < |b|
  {
    a[k] == b[k] || (PhaseAfter(a[..k]) == Inside && IsVersion(a[k]) && VersionRest(a[k]) == VersionRest(b[k]))
  }

  predicate DifferInVersion(a: Text, b: Text) {
    |a| == |b| && forall k :: 0 <= k < |a| ==> SameButVersion(a, b, k)
  }

  lemma {:induction false} SameEdit(a: Text, b: Text)
    requires DifferInVersion(a, b)
    ensures PhaseAfter(a) == PhaseAfter(b) && Edited(a) == Edited(b) && Count(a) == Count(b)
  {
    if a != [] {
      var n := |a| - 1;
      assert SameButVersion(a, b, n);
      forall k | 0 <= k < n
        ensures SameButVersion(a[..n], b[..n], k)
      {
        assert SameButVersion(a, b, k);
        assert a[..n][..k] == a[..k];
      }
      SameEdit(a[..n], b[..n]);
      if a[n] != b[n] {
        VersionLinesOpenNothing(a[n]);
        VersionLinesOpenNothing(b[n]);
      }
    }
  }

  /** Line by line, what an edited manifest holds. */
  lemma {:induction false} EditedLine(a: Text, k: nat)
    requires k < |a|
    ensures |Edited(a)| == |a|
    ensures Edited(a)[k] == EditedIn(PhaseAfter(a[..k]), a[k])
  {
    var before := a[..|a| - 1];
    if k < |before| {
      EditedLine(before, k);
      assert before[..k] == a[..k];
    } else {
      EditedLength(before);
    }
  }

  lemma {:induction false} EditedLength(a: Text)
    ensures |Edited(a)| == |a|
  {
    if a != [] {
      EditedLength(a[..|a| - 1]);
    }
  }

  lemma {:induction false} SamePhase(a: Text, b: Text)
    requires Edited(a) == Edited(b)
    ensures PhaseAfter(a) == PhaseAfter(b)
  {
    EditedLength(a);
    EditedLength(b);
    if a != [] {
      EditedPrefix(a, |a| - 1);
      EditedPrefix(b, |b| - 1);
      SamePhase(a[..|a| - 1], b[..|b| - 1]);
      EditedLine(a, |a| - 1);
      EditedLine(b, |b| - 1);
      SameLine(PhaseAfter(a[..|a| - 1]), a[|a| - 1], b[|b| - 1]);
    }
  }

  lemma SameLine(p: Phase, a: Line, b: Line)
    requires EditedIn(p, a) == EditedIn(p, b)
    ensures a == b || (p == Inside && IsVersion(a) && VersionRest(a) == VersionRest(b))
    ensures Next(p, a) == Next(p, b)
  {
    if Erasable(p, a) {
      NeutralAgain(VersionRest(a).value);
      VersionLinesOpenNothing(a);
    }
    if Erasable(p, b) {
      NeutralAgain(VersionRest(b).value);
      VersionLinesOpenNothing(b);
    }
  }

  /** Exactly the package versions are erased: two manifests with a single version
      line in `[package]` give the same recipe text if and only if they differ in that
      version alone. */
  lemma ManifestErasure(a: Text, b: Text)
    requires Normalized(a).Ok? && Normalized(b).Ok?
    ensures Normalized(a) == Normalized(b) <==> DifferInVersion(a, b)
  {
    if DifferInVersion(a, b) {
      SameEdit(a, b);
    }
    if Edited(a) == Edited(b) {
      EditedLength(a);
      EditedLength(b);
      forall k | 0 <= k < |a|
        ensures SameButVersion(a, b, k)
      {
        PrefixEdits(a, b, k);
        SamePhase(a[..k], b[..k]);
        EditedLine(a, k);
        EditedLine(b, k);
        SameLine(PhaseAfter(a[..k]), a[k], b[k]);
      }
    }
  }

  lemma {:induction false} EditedPrefix(a: Text, k: nat)
    requires k <= |a|
    ensures |Edited(a)| == |a| && Edited(a[..k]) == Edited(a)[..k]
  {
    EditedLength(a);
    if k == |a| {
      assert a[..k] == a;
    } else {
      EditedPrefix(a[..|a| - 1], k);
      EditedLength(a[..|a| - 1]);
      assert a[..|a| - 1][..k] == a[..k];
    }
  }

  lemma PrefixEdits(a: Text, b: Text, k: nat)
    requires Edited(a) == Edited(b) && |a| == |b| && k <= |a|
    ensures Edited(a[..k]) == Edited(b[..k])
  {
    EditedPrefix(a, k);
    EditedPrefix(b, k);
  }

  /** Editing changes nothing but the version. */
  lemma EditChangesVersionOnly(a: Text)
    ensures DifferInVersion(a, Edited(a))
  {
    EditedLength(a);
    forall k | 0 <= k < |a|
      ensures SameButVersion(a, Edited(a), k)
    {
      EditedLine(a, k);
      if Erasable(PhaseAfter(a[..k]), a[k]) {
        NeutralAgain(VersionRest(a[k]).value);
      }
    }
  }

  /** A normalised manifest is its own normal form. */
  lemma NormalizingAgain(a: Text)
    requires Normalized(a).Ok?
    ensures Normalized(Normalized(a).value) == Normalized(a)
  {
    EditChangesVersionOnly(a);
    SameEdit(a, Edited(a));
  }

  // ---- the version in the text ----

  /** The version that the first `[package]` section assigns, if it does. */
  function PackageVersion(lines: Text): Option<string> {
    if lines == [] then None
    else
      var before, last := lines[..|lines| - 1], lines[|lines| - 1];
      if Erasable(PhaseAfter(before), last) then Some(VersionParts(last).value.0) else PackageVersion(before)
  }

  lemma {:induction false} EditedVersion(a: Text)
    requires Count(a) > 0
    ensures PackageVersion(Edited(a)) == Some("0.0.0")
  {
    var before, last := a[..|a| - 1], a[|a| - 1];
    EditedLength(before);
    EditedPrefix(a, |before|);
    EditChangesVersionOnly(before);
    SameEdit(before, Edited(before));
    if Erasable(PhaseAfter(before), last) {
      NeutralAgain(VersionRest(last).value);
    } else {
      EditedVersion(before);
    }
  }
}
