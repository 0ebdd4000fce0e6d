/** What a text of trusted ranges admits: from the spelled address and prefix to the
    addresses in the range (backend/src/config.rs, `from_str` and `parse_ip_ranges`). */
module IpTexts {
  import opened Bits
  import opened IpRanges
  import opened Options
  import Decimals

  // ---- a range from an address and a prefix ----

  /** Two numbers of 128 bits agree in their first `count` bits. */
  predicate SameFirstBits(m: nat, n: nat, count: nat)
    requires count <= 128
  {
    Shr(m, 128 - count) == Shr(n, 128 - count)
  }

  /** The bits that an explicit prefix fixes in the 128-bit form of the address. */
  function FixedBits(a: Address, prefix: nat): nat {
    if a.V4? then prefix + 96 else prefix
  }

  /** An IPv4 address, in either form. */
  predicate IsV4(a: Address) {
    a.V4? || Shr(a.n, 32) == 0xFFFF
  }

  lemma IsV4Exactly(a: Address)
    ensures IsV4(a) <==> Normalize(a).V4?
  {
  }

  lemma V4NetworkMembers(r: Range, a: Address)
    requires IsRange(r) && r.network.V4? && IsAddress(a)
    ensures Contains(r, a) <==> InLiteralRange(Form128(r.network), r.prefix + MAPPED_BITS, Form128(a))
  {
    ContainsIsSamePrefix(r, a);
    V4RangeMembers(r, a);
    LiteralRangeMembers(r.network.n, r.prefix, Form128(a));
  }

  lemma V6NetworkMembers(r: Range, a: Address)
    requires IsRange(r) && r.network.V6? && IsAddress(a)
    ensures Contains(r, a) <==> Normalize(a).V6? && InLiteralRange(r.network.n, r.prefix, Form128(a))
  {
    ContainsIsSamePrefix(r, a);
  }

  /** Which prefixes are accepted for an address, in numbers. */
  predicate PrefixAccepted(a: Address, prefix: nat) {
    if a.V4? then prefix <= 32 else if IsV4(a) then 96 <= prefix <= 128 else prefix <= 128
  }

  lemma MappedAccepted(a: Address, prefix: nat)
    ensures PrefixAccepted(a, prefix) <==>
            if IsMapped(a) then MAPPED_BITS <= prefix <= V6_BITS else prefix <= Width(a.V4?)
  {
  }

  lemma BuiltRange(a: Address, prefix: nat)
    requires IsAddress(a)
    ensures BuildRange(a, Some(prefix)).Ok? <==> PrefixAccepted(a, prefix)
    ensures PrefixAccepted(a, prefix) ==>
      BuildRange(a, Some(prefix)) == Ok(Range(Normalize(a), if IsMapped(a) then prefix - 96 else prefix))
      && IsRange(BuildRange(a, Some(prefix)).value)
  {
    BuildRangeAccepts(a, Some(prefix));
    MappedAccepted(a, prefix);
  }

  lemma BuiltRangeMembers(a: Address, prefix: nat, b: Address)
    requires IsAddress(a) && IsAddress(b) && PrefixAccepted(a, prefix)
    ensures BuildRange(a, Some(prefix)).Ok? && IsRange(BuildRange(a, Some(prefix)).value)
    ensures Contains(BuildRange(a, Some(prefix)).value, b) <==>
            (IsV4(a) <==> IsV4(b)) && SameFirstBits(Form128(a), Form128(b), FixedBits(a, prefix))
  {
    BuiltRange(a, prefix);
    var r := Range(Normalize(a), if IsMapped(a) then prefix - 96 else prefix);
    RangeMembers(a, r, FixedBits(a, prefix), b);
  }

  lemma RangeMembers(a: Address, r: Range, fixed: nat, b: Address)
    requires IsAddress(a) && IsAddress(b) && IsRange(r) && r.network == Normalize(a)
    requires fixed == if r.network.V4? then r.prefix + 96 else r.prefix
    ensures Contains(r, b) <==> (IsV4(a) <==> IsV4(b)) && SameFirstBits(Form128(a), Form128(b), fixed)
  {
    IsV4Exactly(a);
    IsV4Exactly(b);
    if r.network.V4? {
      V4RangeOf(a, r, b);
    } else {
      V6NetworkMembers(r, b);
    }
  }

  lemma V4RangeOf(a: Address, r: Range, b: Address)
    requires IsAddress(a) && IsAddress(b) && IsRange(r) && r.network == Normalize(a) && r.network.V4?
    ensures Contains(r, b) <==> Normalize(b).V4? && SameFirstBits(Form128(a), Form128(b), r.prefix + 96)
  {
    NormalizeKeepsAddress(a);
    V4NetworkMembers(r, b);
    if Contains(r, b) {
      SharingMakesV4(r, b);
    }
  }

  lemma SharingMakesV4(r: Range, b: Address)
    requires IsRange(r) && r.network.V4? && IsAddress(b) && Contains(r, b)
    ensures Normalize(b).V4?
  {
  }

  // ---- texts ----

  lemma {:induction false} FirstSlash(text: string, rest: string)
    requires '/' !in text
    ensures IndexOf(text + "/" + rest, '/') == |text|
  {
    if text != "" {
      assert (text + "/" + rest)[1..] == text[1..] + "/" + rest;
      FirstSlash(text[1..], rest);
    }
  }

  /** A text without slash is a single address. */
  lemma AddressText(parse: string -> Option<Address>, text: string, b: Address)
    requires ParsesAddresses(parse) && '/' !in text && IsAddress(b)
    ensures ParseRange(parse, text).Ok? <==> parse(text).Some?
    ensures parse(text).Some? ==>
      && IsRange(ParseRange(parse, text).value)
      && (Contains(ParseRange(parse, text).value, b) <==> Form128(b) == Form128(parse(text).value))
  {
    assert IndexOf(text, '/') == |text|;
    if parse(text).Some? {
      var a := parse(text).value;
      assert ParseRange(parse, text) == Ok(Single(a));
      SingleHoldsOneAddress(a, b);
      NormalizeKeepsAddress(a);
      NormalizeKeepsAddress(b);
      SameNormalForm(a, b);
    }
  }

  lemma SameNormalForm(a: Address, b: Address)
    requires IsAddress(a) && IsAddress(b)
    ensures Normalize(a) == Normalize(b) <==> Form128(a) == Form128(b)
  {
    NormalizeKeepsAddress(a);
    NormalizeKeepsAddress(b);
  }

  /** A text with a slash is accepted exactly when an address stands before the first one and
      an unsigned number that suits the address behind it; then an address is in the range
      exactly when it is of the same family and shares the bits that the prefix fixes. */
  lemma PrefixText(parse: string -> Option<Address>, text: string, numeral: string, b: Address)
    requires ParsesAddresses(parse) && '/' !in text && IsAddress(b)
    ensures var r, p := ParseRange(parse, text + "/" + numeral), Decimals.ParseUnsigned(numeral, 255);
      && (r.Ok? <==> '/' !in numeral && parse(text).Some? && p.Some? && PrefixAccepted(parse(text).value, p.value))
      && (r.Ok? ==>
            && IsRange(r.value)
            && (Contains(r.value, b) <==>
                  && (IsV4(parse(text).value) <==> IsV4(b))
                  && SameFirstBits(Form128(parse(text).value), Form128(b), FixedBits(parse(text).value, p.value))))
  {
    SlashSplits(parse, text, numeral);
    if parse(text).Some? && Decimals.ParseUnsigned(numeral, 255).Some? {
      var a, p := parse(text).value, Decimals.ParseUnsigned(numeral, 255).value;
      BuiltRange(a, p);
      if PrefixAccepted(a, p) {
        BuiltRangeMembers(a, p, b);
      }
    }
  }

  lemma SlashSplits(parse: string -> Option<Address>, text: string, numeral: string)
    requires '/' !in text
    ensures var r, p := ParseRange(parse, text + "/" + numeral), Decimals.ParseUnsigned(numeral, 255);
      && ('/' in numeral || parse(text).None? || p.None? ==> r.Err?)
      && ('/' !in numeral && parse(text).Some? && p.Some? ==> r == BuildRange(parse(text).value, p))
  {
    var value := text + "/" + numeral;
    FirstSlash(text, numeral);
    assert value[..|text|] == text && value[|text| + 1..] == numeral;
  }

  /** Why a text is rejected, in the order of the checks: a second slash, the address, the
      number, a prefix too short for a mapped address, a prefix too long for the family. */
  lemma RejectionExactly(parse: string -> Option<Address>, text: string, numeral: string)
    requires ParsesAddresses(parse) && '/' !in text
    ensures parse(text).None? ==> ParseRange(parse, text) == Err(BadAddress)
    ensures var r, p := ParseRange(parse, text + "/" + numeral), Decimals.ParseUnsigned(numeral, 255);
      if '/' in numeral then r == Err(ManySeparators)
      else if parse(text).None? then r == Err(BadAddress)
      else if p.None? then r == Err(BadPrefix)
      else if parse(text).value.V6? && IsV4(parse(text).value) && p.value < 96 then r == Err(NotRepresentable)
      else if !PrefixAccepted(parse(text).value, p.value) then r == Err(PrefixTooLong)
      else r.Ok?
  {
    var value := text + "/" + numeral;
    FirstSlash(text, numeral);
    assert IndexOf(text, '/') == |text|;
    assert value[..|text|] == text && value[|text| + 1..] == numeral;
    if parse(text).Some? {
      IsV4Exactly(parse(text).value);
    }
  }

  /** In particular for a printed prefix. */
  lemma PrintedPrefixText(parse: string -> Option<Address>, text: string, p: nat)
    requires ParsesAddresses(parse) && '/' !in text && parse(text).Some? && p <= 255
    ensures ParseRange(parse, text + "/" + Decimals.Print(p)).Ok? <==> PrefixAccepted(parse(text).value, p)
  {
    Decimals.PrintThenParse(p, 255);
    assert '/' !in Decimals.Print(p) by {
      assert forall i :: 0 <= i < |Decimals.Print(p)| ==> Decimals.IsDigit(Decimals.Print(p)[i]);
    }
    PrefixText(parse, text, Decimals.Print(p), V4(0));
  }

  // ---- IPv6 blocks over the mapped addresses ----

  /** The block fixes no bit in which it differs from the IPv4-mapped addresses. */
  predicate CoversMapped(a: Address, prefix: nat) {
    prefix <= 96 && Shr(a.n, 128 - prefix) == Shr(0xFFFF, 96 - prefix)
  }

  lemma CoversSomeV4(a: Address, prefix: nat, b: Address)
    requires a.V6? && prefix <= 96 && b.V4?
    ensures SameFirstBits(a.n, Form128(b), prefix) <==> CoversMapped(a, prefix)
  {
    ShrAdds(Form128(b), 32, 96 - prefix);
    ShrOfJoined(MAPPED, b.n, 32, 32);
    assert 32 + (96 - prefix) == 128 - prefix;
  }

  /** The literal 128-bit reading of an accepted prefix is exact for IPv4 and mapped addresses,
      and for IPv6 blocks exactly when they do not cover the mapped addresses: a block that
      does, such as ::/0, holds no IPv4 address. */
  lemma LiteralReadingExactly(a: Address, prefix: nat)
    requires IsAddress(a) && PrefixAccepted(a, prefix)
    ensures BuildRange(a, Some(prefix)).Ok? && IsRange(BuildRange(a, Some(prefix)).value)
    ensures (forall b :: IsAddress(b) ==>
               (Contains(BuildRange(a, Some(prefix)).value, b) <==>
                SameFirstBits(Form128(a), Form128(b), FixedBits(a, prefix)))) <==>
            IsV4(a) || !CoversMapped(a, prefix)
  {
    BuiltRange(a, prefix);
    if IsV4(a) || !CoversMapped(a, prefix) {
      forall b | IsAddress(b)
        ensures Contains(BuildRange(a, Some(prefix)).value, b) <==>
                SameFirstBits(Form128(a), Form128(b), FixedBits(a, prefix))
      {
        ReadsLiterally(a, prefix, b);
      }
    } else {
      ZeroIsAddress();
      HoldsNoV4(a, prefix, V4(0));
    }
  }

  lemma ReadsLiterally(a: Address, prefix: nat, b: Address)
    requires IsAddress(a) && IsAddress(b) && PrefixAccepted(a, prefix) && (IsV4(a) || !CoversMapped(a, prefix))
    ensures BuildRange(a, Some(prefix)).Ok? && IsRange(BuildRange(a, Some(prefix)).value)
    ensures Contains(BuildRange(a, Some(prefix)).value, b) <==>
            SameFirstBits(Form128(a), Form128(b), FixedBits(a, prefix))
  {
    BuiltRangeMembers(a, prefix, b);
    if SameFirstBits(Form128(a), Form128(b), FixedBits(a, prefix)) {
      SharedBitsDecideFamily(a, prefix, b);
    }
  }

  lemma HoldsNoV4(a: Address, prefix: nat, b: Address)
    requires IsAddress(a) && IsAddress(b) && PrefixAccepted(a, prefix) && !IsV4(a) && CoversMapped(a, prefix) && b.V4?
    ensures BuildRange(a, Some(prefix)).Ok? && IsRange(BuildRange(a, Some(prefix)).value)
    ensures !Contains(BuildRange(a, Some(prefix)).value, b)
    ensures SameFirstBits(Form128(a), Form128(b), FixedBits(a, prefix))
  {
    BuiltRangeMembers(a, prefix, b);
    CoversSomeV4(a, prefix, b);
  }

  lemma ZeroIsAddress()
    ensures IsAddress(V4(0))
  {
  }

  /** When all bits in front of an embedded IPv4 address are fixed, they decide the family. */
  lemma ManyBitsDecideFamily(m: nat, n: nat, fixed: nat)
    requires 96 <= fixed <= 128 && SameFirstBits(m, n, fixed)
    ensures Shr(m, 32) == Shr(n, 32)
  {
    ShrAdds(m, 128 - fixed, fixed - 96);
    ShrAdds(n, 128 - fixed, fixed - 96);
    assert (128 - fixed) + (fixed - 96) == 32;
  }

  lemma FewBitsDecideFamily(m: nat, n: nat, fixed: nat)
    requires fixed < 96 && SameFirstBits(m, n, fixed) && Shr(n, 32) == 0xFFFF
    ensures Shr(m, 128 - fixed) == Shr(0xFFFF, 96 - fixed)
  {
    ShrAdds(n, 32, 96 - fixed);
    assert 32 + (96 - fixed) == 128 - fixed;
  }

  lemma IsV4ByForm(a: Address)
    requires IsAddress(a)
    ensures IsV4(a) <==> Shr(Form128(a), 32) == 0xFFFF
  {
    NormalizeKeepsAddress(a);
    IsV4Exactly(a);
  }

  lemma SharedBitsDecideFamily(a: Address, prefix: nat, b: Address)
    requires IsAddress(a) && IsAddress(b) && PrefixAccepted(a, prefix)
    requires SameFirstBits(Form128(a), Form128(b), FixedBits(a, prefix)) && (IsV4(a) || !CoversMapped(a, prefix))
    ensures IsV4(a) <==> IsV4(b)
  {
    IsV4ByForm(a);
    IsV4ByForm(b);
    if FixedBits(a, prefix) >= 96 {
      ManyBitsDecideFamily(Form128(a), Form128(b), FixedBits(a, prefix));
    } else if IsV4(b) {
      FewBitsDecideFamily(Form128(a), Form128(b), FixedBits(a, prefix));
    }
  }

  // ---- lists ----

  /** Some entry of the list, blanks around it taken off, is an accepted range that holds the
      address. */
  ghost predicate Listed(parse: string -> Option<Address>, entries: seq<string>, b: Address)
    requires ParsesAddresses(parse)
  {
    exists k :: 0 <= k < |entries| && Admits(parse, Trim(entries[k]), b)
  }

  ghost predicate Admits(parse: string -> Option<Address>, entry: string, b: Address)
    requires ParsesAddresses(parse)
  {
    ParsedRangesAreRanges(parse, entry);
    entry != "" && ParseRange(parse, entry).Ok? && Contains(ParseRange(parse, entry).value, b)
  }

  ghost predicate InSome(ranges: seq<Range>, b: Address) {
    exists r :: r in ranges && Inside(r, b)
  }

  ghost predicate Inside(r: Range, b: Address) {
    IsRange(r) && Contains(r, b)
  }

  lemma InSomeOfBoth(xs: seq<Range>, ys: seq<Range>, b: Address)
    ensures InSome(xs + ys, b) <==> InSome(xs, b) || InSome(ys, b)
  {
    assert forall r :: r in xs + ys <==> r in xs || r in ys;
  }

  lemma EntryAdmits(parse: string -> Option<Address>, entry: string, b: Address)
    requires ParsesAddresses(parse)
    ensures InSome(EntryRange(parse, entry), b) <==> Admits(parse, entry, b)
  {
    ParsedRangesAreRanges(parse, entry);
    var ranges := EntryRange(parse, entry);
    assert Admits(parse, entry, b) ==> ranges[0] in ranges && Inside(ranges[0], b);
  }

  /** An address is in some range of the result exactly when some entry admits it: entries that
      do not parse, and empty ones, are dropped and stop nothing. */
  lemma {:induction false} AcceptedExactly(parse: string -> Option<Address>, entries: seq<string>, b: Address)
    requires ParsesAddresses(parse)
    ensures InSome(Accepted(parse, entries), b) <==> Listed(parse, entries, b)
    decreases entries
  {
    if entries != [] {
      AcceptedExactly(parse, entries[1..], b);
      EntryAdmits(parse, Trim(entries[0]), b);
      InSomeOfBoth(EntryRange(parse, Trim(entries[0])), Accepted(parse, entries[1..]), b);
      ListedFirst(parse, entries, b);
    }
  }

  lemma ListedFirst(parse: string -> Option<Address>, entries: seq<string>, b: Address)
    requires ParsesAddresses(parse) && entries != []
    ensures Listed(parse, entries, b) <==> Admits(parse, Trim(entries[0]), b) || Listed(parse, entries[1..], b)
  {
    if Listed(parse, entries[1..], b) {
      var k :| 0 <= k < |entries[1..]| && Admits(parse, Trim(entries[1..][k]), b);
      assert Admits(parse, Trim(entries[k + 1]), b);
    }
    if Listed(parse, entries, b) {
      var k :| 0 <= k < |entries| && Admits(parse, Trim(entries[k]), b);
      assert k > 0 ==> Admits(parse, Trim(entries[1..][k - 1]), b);
    }
  }

  // ---- blanks ----

  /** The white space of Unicode, by code point. */
  predicate IsBlank(c: char) {
    var n := c as int;
    || 9 <= n <= 13 || n == 32 || n == 0x85 || n == 0xA0 || n == 0x1680 || 0x2000 <= n <= 0x200A
    || n == 0x2028 || n == 0x2029 || n == 0x202F || n == 0x205F || n == 0x3000
  }

  lemma BlanksAreSpaces(c: char)
    ensures IsSpace(c) <==> IsBlank(c)
  {
  }

  ghost predicate AllBlank(s: string) {
    forall i :: 0 <= i < |s| ==> IsBlank(s[i])
  }

  lemma {:induction false} TrimStartMeaning(s: string)
    ensures |TrimStart(s)| <= |s| && s[|s| - |TrimStart(s)|..] == TrimStart(s) && AllBlank(s[..|s| - |TrimStart(s)|])
    ensures TrimStart(s) != "" ==> !IsBlank(TrimStart(s)[0])
  {
    if s != "" {
      BlanksAreSpaces(s[0]);
      if IsSpace(s[0]) {
        TrimStartMeaning(s[1..]);
        var k := |s| - |TrimStart(s)|;
        assert s[..k] == [s[0]] + s[1..][..k - 1];
      }
    }
  }

  lemma {:induction false} TrimEndMeaning(s: string)
    ensures |TrimEnd(s)| <= |s| && s[..|TrimEnd(s)|] == TrimEnd(s) && AllBlank(s[|TrimEnd(s)|..])
    ensures TrimEnd(s) != "" ==> !IsBlank(TrimEnd(s)[|TrimEnd(s)| - 1])
  {
    if s != "" {
      var n := |s| - 1;
      BlanksAreSpaces(s[n]);
      if IsSpace(s[n]) {
        TrimEndMeaning(s[..n]);
        var k := |TrimEnd(s)|;
        assert s[k..] == s[..n][k..] + [s[n]];
      }
    }
  }

  /** Exactly the blanks at both ends are taken off. */
  lemma TrimMeaning(s: string)
    ensures exists i, j :: 0 <= i <= j <= |s| && Trim(s) == s[i..j] && AllBlank(s[..i]) && AllBlank(s[j..])
    ensures Trim(s) != "" ==> !IsBlank(Trim(s)[0]) && !IsBlank(Trim(s)[|Trim(s)| - 1])
  {
    var t := TrimStart(s);
    TrimStartMeaning(s);
    TrimEndMeaning(t);
    var i := |s| - |t|;
    var j := i + |Trim(s)|;
    assert s[j..] == t[|Trim(s)|..] && s[i..j] == Trim(s);
    assert Trim(s) != "" ==> Trim(s)[0] == t[0];
  }
}
