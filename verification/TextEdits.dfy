/** The text operations the dependency recipe is made of
    (scripts/docker-dependency-recipe.py). A text is the sequence of its lines, each
    with its terminator. */
module TextEdits {
  type Line = string

  type Text = seq<Line>

  // ---- splitting before opening lines ----

  /** One more line opens a section or extends the last one. */
  function AddLine(sections: seq<Text>, line: Line, opens: Line -> bool): (added: seq<Text>)
    requires sections != []
    ensures added != []
  {
    var n := |sections| - 1;
    if opens(line) then sections + [[line]] else sections[n := sections[n] + [line]]
  }

  /** `re.split` at the start of every line that opens a section; what precedes the
      first one is a section too, possibly empty. */
  function Split(lines: Text, opens: Line -> bool): (sections: seq<Text>)
    ensures sections != []
  {
    if lines == [] then [[]]
    else AddLine(Split(lines[..|lines| - 1], opens), lines[|lines| - 1], opens)
  }

  function Join(sections: seq<Text>): Text {
    if sections == [] then [] else Join(sections[..|sections| - 1]) + sections[|sections| - 1]
  }

  /** A section opens with its only opening line; just the first one may lack it. */
  predicate IsSection(section: Text, first: bool, opens: Line -> bool) {
    && (!first ==> section != [] && opens(section[0]))
    && (forall k :: 0 < k < |section| ==> !opens(section[k]))
    && (first && section != [] ==> !opens(section[0]))
  }

  predicate Sectioned(sections: seq<Text>, opens: Line -> bool) {
    forall i :: 0 <= i < |sections| ==> IsSection(sections[i], i == 0, opens)
  }

  lemma JoinSnoc(sections: seq<Text>, last: Text)
    ensures Join(sections + [last]) == Join(sections) + last
  {
    assert (sections + [last])[..|sections|] == sections;
  }

  lemma JoinAdded(sections: seq<Text>, line: Line, opens: Line -> bool)
    requires sections != []
    ensures Join(AddLine(sections, line, opens)) == Join(sections) + [line]
  {
    var n := |sections| - 1;
    if opens(line) {
      JoinSnoc(sections, [line]);
    } else {
      JoinSnoc(sections[..n], sections[n] + [line]);
      assert sections[n := sections[n] + [line]] == sections[..n] + [sections[n] + [line]];
    }
  }

  lemma SectionedAdded(sections: seq<Text>, line: Line, opens: Line -> bool)
    requires sections != [] && Sectioned(sections, opens)
    ensures Sectioned(AddLine(sections, line, opens), opens)
  {
    var n := |sections| - 1;
    if !opens(line) {
      assert IsSection(sections[n], n == 0, opens);
      assert IsSection(sections[n] + [line], n == 0, opens);
    }
  }

  lemma {:induction false} SplitMeaning(lines: Text, opens: Line -> bool)
    ensures Join(Split(lines, opens)) == lines
    ensures Sectioned(Split(lines, opens), opens)
  {
    if lines == [] {
      assert Join([[]]) == Join([]) + [];
    } else {
      var before, last := lines[..|lines| - 1], lines[|lines| - 1];
      SplitMeaning(before, opens);
      JoinAdded(Split(before, opens), last, opens);
      SectionedAdded(Split(before, opens), last, opens);
    }
  }

  lemma SplitSnoc(text: Text, line: Line, opens: Line -> bool)
    ensures Split(text + [line], opens) == AddLine(Split(text, opens), line, opens)
  {
    assert (text + [line])[..|text|] == text;
  }

  /** The sections without their last line. */
  function Shorter(sections: seq<Text>): seq<Text>
    requires sections != [] && sections[|sections| - 1] != []
  {
    var n := |sections| - 1;
    if n > 0 && |sections[n]| == 1 then sections[..n] else sections[n := sections[n][..|sections[n]| - 1]]
  }

  lemma LastLineCut(sections: seq<Text>, line: Line, opens: Line -> bool)
    requires sections != [] && Sectioned(sections, opens) && sections[|sections| - 1] != []
    requires line == sections[|sections| - 1][|sections[|sections| - 1]| - 1]
    ensures Shorter(sections) != [] && Sectioned(Shorter(sections), opens)
    ensures AddLine(Shorter(sections), line, opens) == sections
  {
    var n := |sections| - 1;
    var last := sections[n];
    assert IsSection(last, n == 0, opens);
    assert last[..|last| - 1] + [line] == last;
  }

  /** Sections are found again in their joined text. */
  lemma {:induction false} SplitJoin(sections: seq<Text>, opens: Line -> bool)
    requires sections != [] && Sectioned(sections, opens)
    ensures Split(Join(sections), opens) == sections
    decreases |sections|, |sections[|sections| - 1]|
  {
    var n := |sections| - 1;
    var last := sections[n];
    assert IsSection(last, n == 0, opens);
    if last == [] {
      assert sections == [[]] && Join(sections) == [];
    } else {
      var line := last[|last| - 1];
      LastLineCut(sections, line, opens);
      SplitJoin(Shorter(sections), opens);
      JoinAdded(Shorter(sections), line, opens);
      SplitSnoc(Join(Shorter(sections)), line, opens);
    }
  }

  // ---- searching and replacing ----

  const QUOTE: char := '"'

  predicate Plain(s: string) {
    QUOTE !in s
  }

  /** `str.replace`: from the left, without overlap. */
  function ReplaceAll(s: string, pattern: string, into: string): string
    requires pattern != ""
  {
    if s == "" then ""
    else if pattern <= s then into + ReplaceAll(s[|pattern|..], pattern, into)
    else [s[0]] + ReplaceAll(s[1..], pattern, into)
  }

  /** Text without quotes before the first quote is copied. */
  lemma {:induction false} ReplaceAfter(pre: string, s: string, pattern: string, into: string)
    requires Plain(pre) && pattern != "" && pattern[0] == QUOTE
    ensures ReplaceAll(pre + s, pattern, into) == pre + ReplaceAll(s, pattern, into)
    decreases |pre|
  {
    if pre == "" {
      assert pre + s == s;
    } else {
      ReplaceAfter(pre[1..], s, pattern, into);
      assert (pre + s)[1..] == pre[1..] + s;
      assert (pre + s)[0] == pre[0] && pre[0] != QUOTE;
      assert pre + ReplaceAll(s, pattern, into) == [pre[0]] + (pre[1..] + ReplaceAll(s, pattern, into));
    }
  }

  /** Replacing quoted text leaves a plain beginning in place. */
  lemma {:induction false} BeginningKept(start: string, s: string, pattern: string, into: string)
    requires Plain(start) && pattern != "" && into != "" && pattern[0] == into[0] == QUOTE
    ensures start <= ReplaceAll(s, pattern, into) <==> start <= s
  {
    if start != "" && s != "" && !(pattern <= s) {
      BeginningKept(start[1..], s[1..], pattern, into);
      var t := ReplaceAll(s, pattern, into);
      assert t[1..] == ReplaceAll(s[1..], pattern, into);
      assert start <= t <==> start[0] == t[0] && start[1..] <= t[1..];
      assert start <= s <==> start[0] == s[0] && start[1..] <= s[1..];
    }
  }

  lemma NothingToReplace(s: string, pattern: string, into: string)
    requires Plain(s) && pattern != "" && pattern[0] == QUOTE
    ensures ReplaceAll(s, pattern, into) == s
  {
    ReplaceAfter(s, "", pattern, into);
    assert s + "" == s;
  }

  /** Replacing a text by itself changes nothing. */
  lemma {:induction false} ReplaceBySame(s: string, pattern: string)
    requires pattern != ""
    ensures ReplaceAll(s, pattern, pattern) == s
  {
    if s != "" {
      if pattern <= s {
        ReplaceBySame(s[|pattern|..], pattern);
        assert s == pattern + s[|pattern|..];
      } else {
        ReplaceBySame(s[1..], pattern);
      }
    }
  }

  function InQuotes(x: string): string {
    [QUOTE] + x + [QUOTE]
  }

  /** Where the first occurrence of a character stands. */
  lemma Marked(x: string, c: char, rest: string)
    ensures var s := x + ([c] + rest);
      s[|x|] == c && s[..|x|] == x && s[|x| + 1..] == rest && forall i :: 0 <= i < |x| ==> s[i] == x[i]
  {
  }

  /** A text splits in one way only at its first occurrence of a character. */
  lemma FirstMark(x: string, s: string, y: string, t: string, c: char)
    requires c !in x && c !in y && x + ([c] + s) == y + ([c] + t)
    ensures x == y && s == t
  {
    Marked(x, c, s);
    Marked(y, c, t);
    assert |x| == |y|;
  }

  lemma QuotedPrefix(x: string, y: string, post: string)
    requires Plain(x) && Plain(y)
    ensures InQuotes(x) <= InQuotes(y) + post <==> x == y
  {
    var s := InQuotes(y) + post;
    if InQuotes(x) <= s {
      var rest := s[|x| + 2..];
      assert s == InQuotes(x) + rest;
      assert s[1..] == x + ([QUOTE] + rest) == y + ([QUOTE] + post);
      FirstMark(x, rest, y, post, QUOTE);
    }
  }

  lemma LoneQuote(x: string, post: string)
    requires Plain(post)
    ensures !(InQuotes(x) <= [QUOTE] + post)
  {
    assert InQuotes(x)[|x| + 1] == QUOTE;
    assert forall i :: 0 < i <= |post| ==> ([QUOTE] + post)[i] == post[i - 1];
  }

  lemma ReplaceThatWord(word: string, post: string, into: string)
    requires Plain(word) && Plain(post)
    ensures ReplaceAll(InQuotes(word) + post, InQuotes(word), InQuotes(into)) == InQuotes(into) + post
  {
    var rest := InQuotes(word) + post;
    assert InQuotes(word) <= rest && rest[|InQuotes(word)|..] == post;
    NothingToReplace(post, InQuotes(word), InQuotes(into));
  }

  lemma SkipOtherWord(word: string, post: string, x: string, into: string)
    requires Plain(word) && Plain(post) && Plain(x) && word != x
    ensures ReplaceAll(InQuotes(word) + post, InQuotes(x), into) == InQuotes(word) + post
  {
    var rest, tail := InQuotes(word) + post, [QUOTE] + post;
    QuotedPrefix(x, word, post);
    assert rest[1..] == word + tail;
    ReplaceAfter(word, tail, InQuotes(x), into);
    LoneQuote(x, post);
    assert tail[1..] == post;
    NothingToReplace(post, InQuotes(x), into);
    assert ReplaceAll(tail, InQuotes(x), into) == tail;
    assert rest == [QUOTE] + (word + tail);
  }

  /** In a line with a single quoted word, a quoted pattern is that word or absent. */
  lemma ReplaceWord(pre: string, word: string, post: string, x: string, into: string)
    requires Plain(pre) && Plain(word) && Plain(post) && Plain(x)
    ensures ReplaceAll(pre + (InQuotes(word) + post), InQuotes(x), InQuotes(into)) ==
            pre + (InQuotes(if word == x then into else word) + post)
  {
    ReplaceAfter(pre, InQuotes(word) + post, InQuotes(x), InQuotes(into));
    if word == x {
      ReplaceThatWord(word, post, into);
    } else {
      SkipOtherWord(word, post, x, InQuotes(into));
    }
  }
}
