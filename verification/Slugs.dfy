/** Slug collisions: `base`, `base-2` .. `base-100`, and the parser with which the
    cleanup pass takes such a suffix off again (backend/src/db.rs). */
module Slugs {
  import opened Options
  import opened Decimals

  const LAST_SUFFIX: nat := 100
  const U32_MAX: nat := 0xFFFF_FFFF

  /** The n-th name tried for a base slug; the first one carries no suffix. */
  function Candidate(base: string, n: nat): string {
    if n <= 1 then base else base + "-" + Print(n)
  }

  function Candidates(base: string): set<string> {
    set n | 1 <= n <= LAST_SUFFIX :: Candidate(base, n)
  }

  /** Specification: c is the first candidate nobody uses. */
  ghost predicate IsFirstFree(base: string, used: set<string>, n: nat) {
    && 1 <= n <= LAST_SUFFIX
    && Candidate(base, n) !in used
    && forall m :: 1 <= m < n ==> Candidate(base, m) in used
  }

  function SearchFrom(base: string, used: set<string>, n: nat): Option<string>
    decreases LAST_SUFFIX + 1 - n
  {
    if n > LAST_SUFFIX then None
    else if Candidate(base, n) !in used then Some(Candidate(base, n))
    else SearchFrom(base, used, n + 1)
  }

  function FirstFree(base: string, used: set<string>): Option<string> {
    SearchFrom(base, used, 1)
  }

  /** The resolver as the source writes it. */
  method ResolveAvailableSlug(base: string, used: set<string>) returns (slug: Option<string>)
    ensures slug == FirstFree(base, used)
  {
    if base !in used {
      return Some(base);
    }
    for n := 2 to LAST_SUFFIX + 1
      invariant FirstFree(base, used) == SearchFrom(base, used, n)
    {
      var candidate := base + "-" + Print(n);
      if candidate !in used {
        return Some(candidate);
      }
    }
    slug := None;
  }

  lemma {:induction false} SearchIsFirstFree(base: string, used: set<string>, n: nat)
    requires 1 <= n
    requires forall m :: 1 <= m < n ==> Candidate(base, m) in used
    ensures SearchFrom(base, used, n).None? <==> forall m :: n <= m <= LAST_SUFFIX ==> Candidate(base, m) in used
    ensures SearchFrom(base, used, n).Some? ==>
              exists k :: IsFirstFree(base, used, k) && SearchFrom(base, used, n).value == Candidate(base, k)
    decreases LAST_SUFFIX + 1 - n
  {
    if n <= LAST_SUFFIX {
      if Candidate(base, n) !in used {
        assert IsFirstFree(base, used, n);
      } else {
        SearchIsFirstFree(base, used, n + 1);
      }
    }
  }

  /** Sound and minimal: a slug is the answer exactly when it is the first free
      candidate; there is no answer exactly when all hundred are in use. */
  lemma FirstFreeIsSoundAndMinimal(base: string, used: set<string>, slug: string)
    ensures FirstFree(base, used) == Some(slug) <==> exists n :: IsFirstFree(base, used, n) && slug == Candidate(base, n)
    ensures FirstFree(base, used).None? <==> Candidates(base) <= used
  {
    SearchIsFirstFree(base, used, 1);
    forall n, k | IsFirstFree(base, used, n) && IsFirstFree(base, used, k)
      ensures n == k
    {
      assert Candidate(base, n) !in used && Candidate(base, k) !in used;
    }
    if Candidates(base) <= used {
      forall m | 1 <= m <= LAST_SUFFIX
        ensures Candidate(base, m) in used
      {
        assert Candidate(base, m) in Candidates(base);
      }
    }
  }

  lemma {:induction false} SearchIgnoresOthers(base: string, used: set<string>, n: nat)
    requires 1 <= n
    ensures SearchFrom(base, used, n) == SearchFrom(base, used * Candidates(base), n)
    decreases LAST_SUFFIX + 1 - n
  {
    if n <= LAST_SUFFIX {
      assert Candidate(base, n) in Candidates(base);
      SearchIgnoresOthers(base, used, n + 1);
    }
  }

  /** The database query filters the active slugs by the candidate list; the
      answer is the one computed from all active slugs. */
  lemma FilteredQueryAgrees(base: string, used: set<string>)
    ensures FirstFree(base, used * Candidates(base)) == FirstFree(base, used)
  {
    SearchIgnoresOthers(base, used, 1);
  }

  lemma CandidatesDiffer(base: string, m: nat, n: nat)
    requires 1 <= m < n
    ensures Candidate(base, m) != Candidate(base, n)
  {
    if m > 1 {
      ValueOfPrint(m);
      ValueOfPrint(n);
      assert Candidate(base, m)[|base| + 1..] == Print(m);
      assert Candidate(base, n)[|base| + 1..] == Print(n);
    }
  }

  lemma LastCandidateIsNew(base: string, k: nat)
    ensures Candidate(base, k) !in set n | 1 <= n <= k - 1 :: Candidate(base, n)
  {
    forall m | 1 <= m < k
      ensures Candidate(base, m) != Candidate(base, k)
    {
      CandidatesDiffer(base, m, k);
    }
  }

  lemma {:induction false} CandidateCount(base: string, k: nat)
    ensures |set n | 1 <= n <= k :: Candidate(base, n)| == k
  {
    var upTo := set n | 1 <= n <= k :: Candidate(base, n);
    if k == 0 {
      assert upTo == {};
    } else {
      var before := set n | 1 <= n <= k - 1 :: Candidate(base, n);
      CandidateCount(base, k - 1);
      assert upTo == before + {Candidate(base, k)};
      LastCandidateIsNew(base, k);
    }
  }

  /** Complete: fewer than a hundred active slugs always leave a candidate. */
  lemma FewSlugsAlwaysResolve(base: string, used: set<string>)
    requires |used| < LAST_SUFFIX
    ensures FirstFree(base, used).Some?
  {
    FirstFreeIsSoundAndMinimal(base, used, base);
    if Candidates(base) <= used {
      CandidateCount(base, LAST_SUFFIX);
      SubsetSize(Candidates(base), used);
      assert false;
    }
  }

  lemma {:induction false} SubsetSize<T>(a: set<T>, b: set<T>)
    requires a <= b
    ensures |a| <= |b|
    decreases a
  {
    if a != {} {
      var x :| x in a;
      SubsetSize(a - {x}, b - {x});
    }
  }

  /** Once the candidates are exhausted, more slugs in use do not bring one back. */
  lemma ExhaustionIsMonotone(base: string, used: set<string>, more: set<string>)
    requires used <= more && FirstFree(base, used).None?
    ensures FirstFree(base, more).None?
  {
    FirstFreeIsSoundAndMinimal(base, used, base);
    FirstFreeIsSoundAndMinimal(base, more, base);
  }

  // ---- the suffix parser of the cleanup pass ----

  /** Position of the last hyphen, or the length of the text when there is none. */
  function LastHyphen(s: string): (p: nat)
    ensures p <= |s|
    ensures p < |s| ==> s[p] == '-' && forall i :: p < i < |s| ==> s[i] != '-'
    ensures p == |s| ==> '-' !in s
  {
    if s == "" then 0
    else if s[|s| - 1] == '-' then |s| - 1
    else
      var p := LastHyphen(s[..|s| - 1]);
      if p == |s| - 1 then |s| else p
  }

  /** The base the cleanup pass sees in a slug, if the slug looks suffixed. */
  function SuffixBase(slug: string): (base: Option<string>)
    ensures base.Some? ==> |base.value| < |slug|
  {
    var p := LastHyphen(slug);
    if p == |slug| then None
    else match ParseUnsigned(slug[p + 1..], U32_MAX)
      case Some(n) => if 2 <= n <= LAST_SUFFIX then Some(slug[..p]) else None
      case None => None
  }

  predicate IsSuffix(digits: string) {
    digits != "" && (forall i :: 0 <= i < |digits| ==> '0' <= digits[i] <= '9') && 2 <= Value(digits) <= 100
  }

  /** Digits, perhaps behind a plus sign. */
  predicate IsSigned(rest: string) {
    IsSuffix(rest) || (rest != "" && rest[0] == '+' && IsSuffix(rest[1..]))
  }

  /** The slug is the base, a hyphen and the rest. */
  predicate Hyphenated(slug: string, base: string, rest: string) {
    |slug| == |base| + 1 + |rest| && slug[..|base|] == base && slug[|base|] == '-' && slug[|base| + 1..] == rest
  }

  /** Which slugs look suffixed, in characters: a base, a hyphen, perhaps a plus sign, and
      digits whose value is 2 to 100. */
  ghost predicate IsSuffixed(slug: string, base: string) {
    exists rest :: Hyphenated(slug, base, rest) && IsSigned(rest)
  }

  lemma LastHyphenIs(slug: string, base: string, rest: string)
    requires Hyphenated(slug, base, rest) && forall i :: 0 <= i < |rest| ==> rest[i] != '-'
    ensures LastHyphen(slug) == |base|
  {
    forall i | |base| < i < |slug|
      ensures slug[i] != '-'
    {
      assert slug[i] == slug[|base| + 1..][i - |base| - 1];
    }
  }

  lemma SignedIsParsed(rest: string)
    ensures IsSigned(rest) <==> match ParseUnsigned(rest, U32_MAX) case Some(n) => 2 <= n <= LAST_SUFFIX case None => false
  {
  }

  /** The parser takes off exactly such suffixes. */
  lemma SuffixBaseExactly(slug: string, base: string)
    ensures SuffixBase(slug) == Some(base) <==> IsSuffixed(slug, base)
  {
    if SuffixBase(slug) == Some(base) {
      var rest := slug[LastHyphen(slug) + 1..];
      SignedIsParsed(rest);
      assert Hyphenated(slug, base, rest) && IsSigned(rest);
    }
    if IsSuffixed(slug, base) {
      var rest :| Hyphenated(slug, base, rest) && IsSigned(rest);
      SuffixHasNoHyphen(rest);
      LastHyphenIs(slug, base, rest);
      SignedIsParsed(rest);
    }
  }

  lemma SuffixHasNoHyphen(rest: string)
    requires IsSigned(rest)
    ensures forall i :: 0 <= i < |rest| ==> rest[i] != '-'
  {
    if !IsSuffix(rest) {
      forall i | 0 < i < |rest|
        ensures rest[i] != '-'
      {
        assert rest[i] == rest[1..][i - 1];
      }
    }
  }

  /** The parser recovers the base from every suffixed result of the resolver. */
  lemma ParserRecoversBase(base: string, n: nat)
    requires 2 <= n
    ensures SuffixBase(Candidate(base, n)) == if n <= LAST_SUFFIX then Some(base) else None
  {
    var slug := Candidate(base, n);
    var digits := Print(n);
    assert slug[|base|] == '-' && slug[|base| + 1..] == digits;
    forall i | |base| < i < |slug|
      ensures slug[i] != '-'
    {
      assert slug[i] == digits[i - |base| - 1];
    }
    assert LastHyphen(slug) == |base|;
    assert slug[..|base|] == base;
    PrintThenParse(n, U32_MAX);
  }

  /** The parser also accepts spellings the resolver never prints: `x-02` or
      `x-+2`. A slug it accepts was printable by the resolver exactly when its
      numeral has no plus sign and no leading zero. */
  lemma ParsedSlugsThatWerePrinted(slug: string)
    requires SuffixBase(slug).Some?
    ensures (exists n :: 2 <= n <= LAST_SUFFIX && slug == Candidate(SuffixBase(slug).value, n))
       <==> slug[LastHyphen(slug) + 1] != '+' && slug[LastHyphen(slug) + 1] != '0'
  {
    var p := LastHyphen(slug);
    var base, numeral := slug[..p], slug[p + 1..];
    assert slug == base + "-" + numeral;
    if numeral[0] != '+' && numeral[0] != '0' {
      PlainNumeralWasPrinted(base, numeral);
    }
    forall n | 2 <= n <= LAST_SUFFIX && slug == Candidate(base, n)
      ensures numeral[0] != '+' && numeral[0] != '0'
    {
      PrintedNumeralIsPlain(base, n, numeral);
    }
  }

  /** For every base: a numeral with one leading zero is read as a suffix and was not printed. */
  lemma LeadingZeroIsParsed(base: string)
    ensures SuffixBase(base + "-02") == Some(base)
    ensures !exists n :: 2 <= n <= LAST_SUFFIX && base + "-02" == Candidate(base, n)
  {
    var slug := base + "-02";
    assert slug[|base|] == '-' && slug[|base| + 1..] == "02" && slug[..|base|] == base;
    assert forall i :: |base| < i < |slug| ==> slug[i] != '-';
    assert LastHyphen(slug) == |base|;
    assert Value("0") == 0 && Value("02") == 2;
    ParsedSlugsThatWerePrinted(slug);
  }

  lemma PlainNumeralWasPrinted(base: string, numeral: string)
    requires numeral != "" && AllDigits(numeral) && numeral[0] != '0' && Value(numeral) >= 2
    ensures base + "-" + numeral == Candidate(base, Value(numeral))
  {
    PrintOfValue(numeral);
  }

  lemma PrintedNumeralIsPlain(base: string, n: nat, numeral: string)
    requires n >= 2 && base + "-" + numeral == Candidate(base, n)
    ensures numeral != "" && numeral[0] != '+' && numeral[0] != '0'
  {
    assert numeral == (base + "-" + numeral)[|base| + 1..] == Print(n);
    PrintedLead(n);
  }

  /** One or more suffixes taken off, as the cleanup pass reads them. */
  predicate Strips(from: string, to: string)
    decreases |from|
  {
    match SuffixBase(from)
    case None => false
    case Some(base) => base == to || Strips(base, to)
  }

  /** Each slug of the chain is the one before without its suffix. */
  ghost predicate IsChain(chain: seq<string>, from: string, to: string) {
    && |chain| >= 2 && chain[0] == from && chain[|chain| - 1] == to
    && forall k :: 0 <= k < |chain| - 1 ==> IsSuffixed(chain[k], chain[k + 1])
  }

  lemma {:induction false} ChainOfStrips(from: string, to: string) returns (chain: seq<string>)
    requires Strips(from, to)
    ensures IsChain(chain, from, to)
    decreases |from|
  {
    var base := SuffixBase(from).value;
    SuffixBaseExactly(from, base);
    if base == to {
      chain := [from, to];
    } else {
      var rest := ChainOfStrips(base, to);
      chain := [from] + rest;
      assert forall k :: 1 <= k < |chain| ==> chain[k] == rest[k - 1];
    }
  }

  lemma {:induction false} ChainStrips(chain: seq<string>, from: string, to: string)
    requires IsChain(chain, from, to)
    ensures Strips(from, to)
    decreases chain
  {
    SuffixBaseExactly(from, chain[1]);
    assert IsSuffixed(chain[0], chain[1]);
    if |chain| > 2 {
      var rest := chain[1..];
      forall k | 0 <= k < |rest| - 1
        ensures IsSuffixed(rest[k], rest[k + 1])
      {
        assert IsSuffixed(chain[k + 1], chain[k + 2]);
      }
      ChainStrips(rest, chain[1], to);
    }
  }

  lemma StripsExactly(from: string, to: string)
    ensures Strips(from, to) <==> exists chain :: IsChain(chain, from, to)
  {
    if Strips(from, to) {
      var chain := ChainOfStrips(from, to);
    }
    if chain :| IsChain(chain, from, to) {
      ChainStrips(chain, from, to);
    }
  }
}
