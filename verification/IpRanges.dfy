/** Trusted proxy ranges: single addresses and CIDR blocks of both families
    (backend/src/config.rs). Prefix notation follows section 3.1 of RFC 4632 and
    section 2.3 of RFC 4291; IPv4-mapped addresses are those of section 2.5.5.2 of
    RFC 4291. */
module IpRanges {
  import opened Options
  import opened Bits
  import Decimals

  const MAPPED: nat := 0xFFFF
  const V4_BITS: nat := 32
  const V6_BITS: nat := 128
  const MAPPED_BITS: nat := 96

  function Width(v4: bool): nat {
    if v4 then V4_BITS else V6_BITS
  }

  datatype Address = V4(n: nat) | V6(n: nat)

  ghost predicate IsAddress(a: Address) {
    a.n < Pow2(Width(a.V4?))
  }

  predicate IsMapped(a: Address) {
    a.V6? && Shr(a.n, V4_BITS) == MAPPED
  }

  /** `normalize_ip_address`. */
  function Normalize(a: Address): (b: Address)
    ensures !IsMapped(b)
    ensures b.V4? <==> a.V4? || IsMapped(a)
  {
    if IsMapped(a) then V4(Low(a.n, V4_BITS)) else a
  }

  /** The 128-bit form of an address. */
  function Form128(a: Address): nat {
    if a.V4? then Join(MAPPED, a.n, V4_BITS) else a.n
  }

  datatype Range = Range(network: Address, prefix: nat)

  /** What the constructors build. */
  ghost predicate IsRange(r: Range) {
    IsAddress(r.network) && !IsMapped(r.network) && r.prefix <= Width(r.network.V4?)
  }

  /** `contains`, bit by bit. */
  predicate Contains(r: Range, a: Address)
    requires r.prefix <= Width(Normalize(r.network).V4?)
  {
    var network, address := Normalize(r.network), Normalize(a);
    var width := Width(network.V4?);
    var mask := PrefixMask(width, r.prefix);
    network.V4? == address.V4? && And(ToBits(network.n, width), mask) == And(ToBits(address.n, width), mask)
  }

  lemma NormalizeKeepsAddress(a: Address)
    requires IsAddress(a)
    ensures IsAddress(Normalize(a))
    ensures Form128(Normalize(a)) == Form128(a)
    ensures Form128(a) < Pow2(V6_BITS)
    ensures Normalize(a).V4? <==> Shr(Form128(a), V4_BITS) == MAPPED
    ensures Normalize(a).V4? ==> Normalize(a).n == Low(Form128(a), V4_BITS)
  {
    if a.V4? {
      ShrOfJoined(MAPPED, a.n, V4_BITS, V4_BITS);
      LowOfJoined(MAPPED, a.n, V4_BITS);
      ShrFits(a.n, V4_BITS, V4_BITS);
      MappedFits(a.n);
    } else if IsMapped(a) {
      SplitThenJoin(a.n, V4_BITS);
    }
  }

  lemma MappedFits(n: nat)
    ensures Join(MAPPED, n, V4_BITS) < Pow2(V6_BITS)
  {
    assert Pow2(4) == 16;
    assert Pow2(8) == 256;
    assert Pow2(12) == 4096;
    assert Pow2(16) == 65536;
    PowersGrow(16, MAPPED_BITS);
    JoinFits(MAPPED, n, V4_BITS, MAPPED_BITS);
  }

  lemma {:induction false} PowersGrow(j: nat, k: nat)
    requires j <= k
    ensures Pow2(j) <= Pow2(k)
  {
    if j < k {
      PowersGrow(j, k - 1);
    }
  }

  // ---- meaning of `contains` ----

  /** A range holds exactly the addresses of its family in one aligned block of
      2^(width - prefix) numbers, whatever form the address is given in. */
  lemma ContainsIsBlockMembership(r: Range, a: Address)
    requires IsRange(r) && IsAddress(a)
    ensures var free := Width(r.network.V4?) - r.prefix;
            var first := Shr(r.network.n, free) * Pow2(free);
            Contains(r, a) <==>
              Normalize(a).V4? == r.network.V4? && first <= Normalize(a).n < first + Pow2(free)
  {
    ContainsIsSamePrefix(r, a);
    SamePrefixIsBlock(r.network.n, Normalize(a).n, Width(r.network.V4?) - r.prefix);
  }

  /** The same family, and the same leading bits. */
  predicate SharesPrefix(r: Range, a: Address)
    requires r.prefix <= Width(r.network.V4?)
  {
    var free := Width(r.network.V4?) - r.prefix;
    Normalize(a).V4? == r.network.V4? && Shr(r.network.n, free) == Shr(Normalize(a).n, free)
  }

  lemma ContainsIsSamePrefix(r: Range, a: Address)
    requires IsRange(r) && IsAddress(a)
    ensures Contains(r, a) <==> SharesPrefix(r, a)
  {
    NormalizeKeepsAddress(a);
    if Normalize(a).V4? == r.network.V4? {
      SameFamilyComparesBits(r, Normalize(a));
    }
  }

  lemma SameFamilyComparesBits(r: Range, b: Address)
    requires IsRange(r) && IsAddress(b) && b.V4? == r.network.V4?
    ensures var width := Width(r.network.V4?);
      And(ToBits(r.network.n, width), PrefixMask(width, r.prefix)) == And(ToBits(b.n, width), PrefixMask(width, r.prefix))
      <==> Shr(r.network.n, width - r.prefix) == Shr(b.n, width - r.prefix)
  {
    MaskedEqualMeansSamePrefix(Width(r.network.V4?), r.prefix, r.network.n, b.n);
  }

  ghost predicate Nested(inner: Range, outer: Range)
    requires IsRange(inner) && IsRange(outer)
  {
    forall a :: IsAddress(a) && Contains(inner, a) ==> Contains(outer, a)
  }

  ghost predicate Disjoint(r: Range, s: Range)
    requires IsRange(r) && IsRange(s)
  {
    forall a :: IsAddress(a) ==> !Contains(r, a) || !Contains(s, a)
  }

  /** Two ranges that share an address are nested, the longer prefix inside. */
  lemma NestedOrDisjoint(r: Range, s: Range)
    requires IsRange(r) && IsRange(s)
    ensures Nested(r, s) || Nested(s, r) || Disjoint(r, s)
  {
    if !Disjoint(r, s) {
      var a :| IsAddress(a) && Contains(r, a) && Contains(s, a);
      ContainsIsSamePrefix(r, a);
      ContainsIsSamePrefix(s, a);
      if r.prefix >= s.prefix {
        SharedAddressNests(r, s, a);
      } else {
        SharedAddressNests(s, r, a);
      }
    }
  }

  lemma SharedAddressNests(inner: Range, outer: Range, a: Address)
    requires IsRange(inner) && IsRange(outer) && IsAddress(a)
    requires Contains(inner, a) && Contains(outer, a) && inner.prefix >= outer.prefix
    ensures Nested(inner, outer)
  {
    ContainsIsSamePrefix(inner, a);
    ContainsIsSamePrefix(outer, a);
    forall b | IsAddress(b) && Contains(inner, b)
      ensures Contains(outer, b)
    {
      ContainsIsSamePrefix(inner, b);
      SharedPrefixNests(inner, outer, a, b);
      ContainsIsSamePrefix(outer, b);
    }
  }

  lemma SharedPrefixNests(inner: Range, outer: Range, a: Address, b: Address)
    requires inner.prefix <= Width(inner.network.V4?) && outer.prefix <= inner.prefix
    requires SharesPrefix(inner, a) && outer.prefix <= Width(outer.network.V4?) && SharesPrefix(outer, a) && SharesPrefix(inner, b)
    ensures SharesPrefix(outer, b)
  {
    var free, more := Width(inner.network.V4?) - inner.prefix, inner.prefix - outer.prefix;
    ShorterPrefixAgrees(Normalize(a).n, Normalize(b).n, free, more);
  }

  lemma ShorterPrefixAgrees(m: nat, n: nat, free: nat, more: nat)
    requires Shr(m, free) == Shr(n, free)
    ensures Shr(m, free + more) == Shr(n, free + more)
  {
    ShrAdds(m, free, more);
    ShrAdds(n, free, more);
  }

  /** `From<IpAddr>`: the range of one address holds that address, in both forms,
      and nothing else. */
  function Single(a: Address): Range {
    Range(Normalize(a), Width(Normalize(a).V4?))
  }

  lemma SingleHoldsOneAddress(a: Address, b: Address)
    requires IsAddress(a) && IsAddress(b)
    ensures IsRange(Single(a))
    ensures Contains(Single(a), b) <==> Normalize(a) == Normalize(b)
  {
    NormalizeKeepsAddress(a);
    ContainsIsSamePrefix(Single(a), b);
  }

  // ---- parsing ----

  datatype ParseError = ManySeparators | BadAddress | BadPrefix | NotRepresentable | PrefixTooLong

  function IndexOf(s: string, c: char): (i: nat)
    ensures i <= |s| && c !in s[..i] && (i < |s| ==> s[i] == c)
  {
    if s == "" || s[0] == c then 0 else
      var i := IndexOf(s[1..], c);
      assert s[..i + 1] == [s[0]] + s[1..][..i];
      i + 1
  }

  /** From the parsed address and the explicit prefix to the range. */
  function BuildRange(address: Address, explicit: Option<nat>): Result<Range, ParseError> {
    var network := Normalize(address);
    var width := Width(network.V4?);
    match explicit
    case None => Ok(Range(network, width))
    case Some(prefix) =>
      if IsMapped(address) && prefix < MAPPED_BITS then Err(NotRepresentable)
      else
        var length := if IsMapped(address) then prefix - MAPPED_BITS else prefix;
        if length > width then Err(PrefixTooLong) else Ok(Range(network, length))
  }

  /** `from_str`; `parse` is the address parser of the standard library. */
  function ParseRange(parse: string -> Option<Address>, value: string): Result<Range, ParseError> {
    var i := IndexOf(value, '/');
    if i == |value| then
      (match parse(value) case None => Err(BadAddress) case Some(a) => BuildRange(a, None))
    else if '/' in value[i + 1..] then Err(ManySeparators)
    else match parse(value[..i])
      case None => Err(BadAddress)
      case Some(a) =>
        match Decimals.ParseUnsigned(value[i + 1..], 255)
        case None => Err(BadPrefix)
        case Some(prefix) => BuildRange(a, Some(prefix))
  }

  ghost predicate ParsesAddresses(parse: string -> Option<Address>) {
    forall s :: parse(s).Some? ==> IsAddress(parse(s).value)
  }

  lemma BuildRangeAccepts(address: Address, explicit: Option<nat>)
    requires IsAddress(address)
    ensures BuildRange(address, explicit).Ok? <==>
              (explicit.None? || if IsMapped(address) then MAPPED_BITS <= explicit.value <= V6_BITS
                                 else explicit.value <= Width(address.V4?))
    ensures BuildRange(address, explicit).Ok? ==> IsRange(BuildRange(address, explicit).value)
  {
    NormalizeKeepsAddress(address);
  }

  /** Every accepted text gives a range whose prefix fits its family, so that no
      shift of `contains` is out of range. */
  lemma ParsedRangesAreRanges(parse: string -> Option<Address>, value: string)
    requires ParsesAddresses(parse)
    ensures ParseRange(parse, value).Ok? ==> IsRange(ParseRange(parse, value).value)
  {
    var i := IndexOf(value, '/');
    if i == |value| {
      if parse(value).Some? {
        BuildRangeAccepts(parse(value).value, None);
      }
    } else if parse(value[..i]).Some? {
      BuildRangeAccepts(parse(value[..i]).value, Decimals.ParseUnsigned(value[i + 1..], 255));
    }
  }

  // ---- rewriting IPv4-mapped ranges ----

  /** Membership in an IPv6 block, read literally over 128 bits. */
  predicate InLiteralRange(network: nat, prefix: nat, form: nat)
    requires prefix <= V6_BITS
  {
    Shr(network, V6_BITS - prefix) == Shr(form, V6_BITS - prefix)
  }

  /** An IPv4-mapped IPv6 range is accepted exactly for the prefixes 96 to 128, and
      the IPv4 range it becomes holds an address, given in either family, exactly
      when the 128-bit form of the address lies in the IPv6 range as written. */
  lemma MappedRangeKeepsMeaning(network: Address, prefix: nat, a: Address)
    requires IsAddress(network) && IsMapped(network) && IsAddress(a)
    ensures BuildRange(network, Some(prefix)).Ok? <==> MAPPED_BITS <= prefix <= V6_BITS
    ensures MAPPED_BITS <= prefix <= V6_BITS ==>
              var r := BuildRange(network, Some(prefix)).value;
              IsRange(r) && (Contains(r, a) <==> InLiteralRange(network.n, prefix, Form128(a)))
  {
    BuildRangeAccepts(network, Some(prefix));
    if MAPPED_BITS <= prefix <= V6_BITS {
      MappedRangeIs(network, prefix);
      RewrittenRangeMembers(network, Range(Normalize(network), prefix - MAPPED_BITS), a);
    }
  }

  lemma MappedRangeIs(network: Address, prefix: nat)
    requires IsAddress(network) && IsMapped(network) && MAPPED_BITS <= prefix <= V6_BITS
    ensures var r := Range(Normalize(network), prefix - MAPPED_BITS); BuildRange(network, Some(prefix)) == Ok(r) && IsRange(r)
  {
  }

  lemma RewrittenRangeMembers(network: Address, r: Range, a: Address)
    requires IsAddress(network) && IsMapped(network) && IsAddress(a) && IsRange(r)
    requires r.network == Normalize(network)
    ensures Contains(r, a) <==> InLiteralRange(network.n, r.prefix + MAPPED_BITS, Form128(a))
  {
    ContainsIsSamePrefix(r, a);
    V4RangeMembers(r, a);
    MappedNumber(network);
    LiteralRangeMembers(r.network.n, r.prefix, Form128(a));
  }

  lemma MappedNumber(network: Address)
    requires IsMapped(network)
    ensures network.n == Join(MAPPED, Normalize(network).n, V4_BITS)
  {
    SplitThenJoin(network.n, V4_BITS);
  }

  lemma V4RangeMembers(r: Range, a: Address)
    requires r.network.V4? && r.prefix <= V4_BITS && IsAddress(a)
    ensures SharesPrefix(r, a) <==>
      && Shr(Form128(a), V4_BITS) == MAPPED
      && Shr(r.network.n, V4_BITS - r.prefix) == Shr(Low(Form128(a), V4_BITS), V4_BITS - r.prefix)
  {
    NormalizeKeepsAddress(a);
  }

  lemma LiteralRangeMembers(m: nat, prefix: nat, form: nat)
    requires m < Pow2(V4_BITS) && prefix <= V4_BITS
    ensures InLiteralRange(Join(MAPPED, m, V4_BITS), prefix + MAPPED_BITS, form) <==>
      Shr(form, V4_BITS) == MAPPED && Shr(m, V4_BITS - prefix) == Shr(Low(form, V4_BITS), V4_BITS - prefix)
  {
    JoinedPrefixAgrees(MAPPED, m, V4_BITS, form, V4_BITS - prefix);
  }

  // ---- lists of ranges ----

  predicate IsSpace(c: char) {
    c in {' ', '\t', '\n', '\r', '\U{0B}', '\U{0C}', '\U{85}', '\U{A0}', '\U{1680}', '\U{2028}', '\U{2029}',
          '\U{202F}', '\U{205F}', '\U{3000}'} || '\U{2000}' <= c <= '\U{200A}'
  }

  function TrimStart(s: string): string {
    if s != "" && IsSpace(s[0]) then TrimStart(s[1..]) else s
  }

  function TrimEnd(s: string): string {
    if s != "" && IsSpace(s[|s| - 1]) then TrimEnd(s[..|s| - 1]) else s
  }

  function Trim(s: string): string {
    TrimEnd(TrimStart(s))
  }

  function SplitCommas(s: string): seq<string>
    decreases |s|
  {
    var i := IndexOf(s, ',');
    if i == |s| then [s] else [s[..i]] + SplitCommas(s[i + 1..])
  }

  /** The ranges of the entries that parse, in order. */
  function Accepted(parse: string -> Option<Address>, entries: seq<string>): seq<Range>
    decreases entries
  {
    if entries == [] then [] else EntryRange(parse, Trim(entries[0])) + Accepted(parse, entries[1..])
  }

  function EntryRange(parse: string -> Option<Address>, e: string): seq<Range> {
    if e != "" && ParseRange(parse, e).Ok? then [ParseRange(parse, e).value] else []
  }

  lemma AcceptedNext(parse: string -> Option<Address>, entries: seq<string>, k: nat)
    requires k < |entries|
    ensures Accepted(parse, entries[k..]) == EntryRange(parse, Trim(entries[k])) + Accepted(parse, entries[k + 1..])
  {
    assert entries[k..][1..] == entries[k + 1..];
  }

  /** The loop over the entries. */
  method AcceptEntries(parse: string -> Option<Address>, entries: seq<string>) returns (ranges: seq<Range>)
    ensures ranges == Accepted(parse, entries)
  {
    ranges := [];
    assert entries[0..] == entries;
    for k := 0 to |entries|
      invariant Accepted(parse, entries) == ranges + Accepted(parse, entries[k..])
    {
      AcceptedNext(parse, entries, k);
      ranges := ranges + EntryRange(parse, Trim(entries[k]));
    }
  }

  /** `parse_ip_ranges`: bad entries are dropped, the others keep their order. */
  method ParseRanges(parse: string -> Option<Address>, raw: Option<string>) returns (ranges: seq<Range>)
    ensures ranges == match raw case None => [] case Some(s) =>
                      if Trim(s) == "" then [] else Accepted(parse, SplitCommas(Trim(s)))
  {
    if raw.None? || Trim(raw.value) == "" {
      return [];
    }
    ranges := AcceptEntries(parse, SplitCommas(Trim(raw.value)));
  }

  function JoinCommas(entries: seq<string>): string
    requires entries != []
    decreases entries
  {
    if |entries| == 1 then entries[0] else entries[0] + "," + JoinCommas(entries[1..])
  }

  lemma {:induction false} FirstComma(entry: string, rest: string)
    requires ',' !in entry
    ensures IndexOf(entry + "," + rest, ',') == |entry|
  {
    if entry != "" {
      assert (entry + "," + rest)[1..] == entry[1..] + "," + rest;
      FirstComma(entry[1..], rest);
    }
  }

  /** Splitting undoes joining, so a list is read entry by entry. */
  lemma {:induction false} SplitUndoesJoin(entries: seq<string>)
    requires entries != [] && forall k :: 0 <= k < |entries| ==> ',' !in entries[k]
    ensures SplitCommas(JoinCommas(entries)) == entries
    decreases entries
  {
    var s := JoinCommas(entries);
    var i := IndexOf(s, ',');
    if |entries| == 1 {
      assert i == |s|;
    } else {
      FirstComma(entries[0], JoinCommas(entries[1..]));
      assert s == entries[0] + "," + JoinCommas(entries[1..]);
      assert s[..i] == entries[0] && s[i + 1..] == JoinCommas(entries[1..]);
      SplitUndoesJoin(entries[1..]);
    }
  }
}
