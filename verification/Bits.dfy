/** Machine words as rows of bits, most significant first, and what masking with a
    prefix mask means for the numbers they stand for. */
module Bits {
  function Pow2(k: nat): (p: nat)
    ensures p >= 1
  {
    if k == 0 then 1 else 2 * Pow2(k - 1)
  }

  function ToBits(n: nat, width: nat): (b: seq<bool>)
    ensures |b| == width
  {
    if width == 0 then [] else ToBits(n / 2, width - 1) + [n % 2 == 1]
  }

  function And(a: seq<bool>, b: seq<bool>): (c: seq<bool>)
    requires |a| == |b|
    ensures |c| == |a|
  {
    seq(|a|, i requires 0 <= i < |a| => a[i] && b[i])
  }

  function Fill(width: nat, bit: bool): (b: seq<bool>)
    ensures |b| == width && forall i :: 0 <= i < width ==> b[i] == bit
  {
    seq(width, i => bit)
  }

  /** `word << count`; the count must be less than the width of the word. */
  function ShiftLeft(b: seq<bool>, count: nat): (c: seq<bool>)
    requires count < |b|
    ensures |c| == |b|
  {
    b[count..] + Fill(count, false)
  }

  /** The mask of a prefix. The full-width shift, which the machine does not have,
      is avoided by the case for prefix 0. */
  function PrefixMask(width: nat, prefix: nat): (m: seq<bool>)
    requires prefix <= width
    ensures |m| == width
    ensures forall i :: 0 <= i < width ==> (m[i] <==> i < prefix)
  {
    if prefix == 0 then Fill(width, false) else ShiftLeft(Fill(width, true), width - prefix)
  }

  /** Dropping the k lowest bits. */
  function Shr(n: nat, k: nat): nat
    decreases k, n
  {
    if k == 0 then n else Shr(n / 2, k - 1)
  }

  lemma {:induction false} BitsOfPrefix(n: nat, width: nat, prefix: nat)
    requires prefix <= width
    ensures ToBits(n, width)[..prefix] == ToBits(Shr(n, width - prefix), prefix)
    decreases width
  {
    if prefix < width {
      BitsOfPrefix(n / 2, width - 1, prefix);
      assert ToBits(n, width)[..prefix] == ToBits(n / 2, width - 1)[..prefix];
    } else {
      assert ToBits(n, width)[..prefix] == ToBits(n, width);
    }
  }

  lemma {:induction false} BitsAreInjective(m: nat, n: nat, width: nat)
    requires m < Pow2(width) && n < Pow2(width)
    requires ToBits(m, width) == ToBits(n, width)
    ensures m == n
    decreases width
  {
    if width > 0 {
      var a, b := ToBits(m, width), ToBits(n, width);
      assert a[..width - 1] == ToBits(m / 2, width - 1);
      assert b[..width - 1] == ToBits(n / 2, width - 1);
      assert a[width - 1] == (m % 2 == 1) && b[width - 1] == (n % 2 == 1);
      BitsAreInjective(m / 2, n / 2, width - 1);
    }
  }

  lemma {:induction false} ShrFits(n: nat, width: nat, k: nat)
    requires n < Pow2(width) && k <= width
    ensures Shr(n, k) < Pow2(width - k)
    decreases k
  {
    if k > 0 {
      ShrFits(n / 2, width - 1, k - 1);
    }
  }

  /** Two words agree under a prefix mask exactly when they agree on the prefix. */
  lemma MaskedEqualMeansSamePrefix(width: nat, prefix: nat, m: nat, n: nat)
    requires prefix <= width && m < Pow2(width) && n < Pow2(width)
    ensures And(ToBits(m, width), PrefixMask(width, prefix)) == And(ToBits(n, width), PrefixMask(width, prefix))
       <==> Shr(m, width - prefix) == Shr(n, width - prefix)
  {
    var mask := PrefixMask(width, prefix);
    var a, b := ToBits(m, width), ToBits(n, width);
    SameUnderMask(a, b, mask, prefix);
    BitsOfPrefix(m, width, prefix);
    BitsOfPrefix(n, width, prefix);
    ShrFits(m, width, width - prefix);
    ShrFits(n, width, width - prefix);
    if a[..prefix] == b[..prefix] {
      BitsAreInjective(Shr(m, width - prefix), Shr(n, width - prefix), prefix);
    }
  }

  lemma SameUnderMask(a: seq<bool>, b: seq<bool>, mask: seq<bool>, prefix: nat)
    requires |a| == |b| == |mask| && prefix <= |a|
    requires forall i :: 0 <= i < |mask| ==> (mask[i] <==> i < prefix)
    ensures And(a, mask) == And(b, mask) <==> a[..prefix] == b[..prefix]
  {
    if And(a, mask) == And(b, mask) {
      forall i | 0 <= i < prefix
        ensures a[i] == b[i]
      {
        assert And(a, mask)[i] == And(b, mask)[i];
      }
    } else if a[..prefix] == b[..prefix] {
      forall i | 0 <= i < |a|
        ensures And(a, mask)[i] == And(b, mask)[i]
      {
        if i < prefix {
          assert a[..prefix][i] == b[..prefix][i];
        }
      }
    }
  }

  // ---- blocks of numbers ----

  lemma DoubledFactor(a: nat, p: nat)
    ensures a * (2 * p) == 2 * (a * p)
  {
  }

  lemma HalfBounds(n: nat, low: nat, p: nat)
    requires low <= n / 2 < low + p
    ensures 2 * low <= n < 2 * low + 2 * p
  {
  }

  lemma {:induction false} ShrBounds(n: nat, k: nat)
    ensures Shr(n, k) * Pow2(k) <= n < Shr(n, k) * Pow2(k) + Pow2(k)
    decreases k
  {
    if k > 0 {
      ShrBounds(n / 2, k - 1);
      DoubledFactor(Shr(n / 2, k - 1), Pow2(k - 1));
      HalfBounds(n, Shr(n / 2, k - 1) * Pow2(k - 1), Pow2(k - 1));
    }
  }

  lemma QuotientIsUnique(q: nat, r: nat, p: nat, n: nat)
    requires q * p <= n < q * p + p && r * p <= n < r * p + p
    ensures q == r
  {
    assert (q + 1) * p == q * p + p && (r + 1) * p == r * p + p;
    if q < r {
      MultiplyOrder(q + 1, r, p);
    } else if r < q {
      MultiplyOrder(r + 1, q, p);
    }
  }

  lemma MultiplyOrder(a: nat, b: nat, p: nat)
    requires a <= b
    ensures a * p <= b * p
  {
  }

  /** Numbers with the same upper bits form the aligned block of 2^k numbers. */
  lemma SamePrefixIsBlock(m: nat, n: nat, k: nat)
    ensures Shr(m, k) == Shr(n, k) <==> Shr(m, k) * Pow2(k) <= n < Shr(m, k) * Pow2(k) + Pow2(k)
  {
    ShrBounds(m, k);
    ShrBounds(n, k);
    if Shr(m, k) * Pow2(k) <= n < Shr(m, k) * Pow2(k) + Pow2(k) {
      QuotientIsUnique(Shr(m, k), Shr(n, k), Pow2(k), n);
    }
  }

  lemma {:induction false} ShrAdds(n: nat, j: nat, k: nat)
    ensures Shr(n, j + k) == Shr(Shr(n, j), k)
    decreases j
  {
    if j > 0 {
      ShrAdds(n / 2, j - 1, k);
    }
  }

  /** The k lowest bits. */
  function Low(n: nat, k: nat): (r: nat)
    ensures r < Pow2(k)
    decreases k, n
  {
    if k == 0 then 0 else 2 * Low(n / 2, k - 1) + n % 2
  }

  /** A high part in front of a word of the given width. */
  function Join(high: nat, n: nat, width: nat): nat
    decreases width, n
  {
    if width == 0 then high else 2 * Join(high, n / 2, width - 1) + n % 2
  }

  lemma {:induction false} JoinIsSum(high: nat, n: nat, width: nat)
    requires n < Pow2(width)
    ensures Join(high, n, width) == high * Pow2(width) + n
    decreases width
  {
    if width > 0 {
      JoinIsSum(high, n / 2, width - 1);
      DoubledFactor(high, Pow2(width - 1));
    }
  }

  lemma {:induction false} SplitThenJoin(n: nat, k: nat)
    ensures Join(Shr(n, k), Low(n, k), k) == n
    decreases k
  {
    if k > 0 {
      SplitThenJoin(n / 2, k - 1);
    }
  }

  lemma {:induction false} ShrOfJoined(high: nat, n: nat, width: nat, k: nat)
    requires k <= width
    ensures Shr(Join(high, n, width), k) == Join(high, Shr(n, k), width - k)
    decreases k
  {
    if k > 0 {
      ShrOfJoined(high, n / 2, width - 1, k - 1);
    }
  }

  lemma {:induction false} JoinFits(high: nat, n: nat, width: nat, more: nat)
    requires high < Pow2(more)
    ensures Join(high, n, width) < Pow2(width + more)
    decreases width
  {
    if width > 0 {
      JoinFits(high, n / 2, width - 1, more);
    }
  }

  lemma {:induction false} LowOfJoined(high: nat, n: nat, width: nat)
    requires n < Pow2(width)
    ensures Low(Join(high, n, width), width) == n
    decreases width
  {
    if width > 0 {
      LowOfJoined(high, n / 2, width - 1);
    }
  }

  lemma {:induction false} JoinedEquals(high: nat, m: nat, width: nat, n: nat)
    requires m < Pow2(width)
    ensures Join(high, m, width) == n <==> Shr(n, width) == high && m == Low(n, width)
    decreases width
  {
    if width > 0 {
      JoinedEquals(high, m / 2, width - 1, n / 2);
    }
  }

  /** A word agrees with a joined one above bit k exactly when it has the same high
      part and its low part agrees above bit k. */
  lemma {:induction false} JoinedPrefixAgrees(high: nat, m: nat, width: nat, n: nat, k: nat)
    requires m < Pow2(width) && k <= width
    ensures Shr(Join(high, m, width), k) == Shr(n, k) <==>
              Shr(n, width) == high && Shr(m, k) == Shr(Low(n, width), k)
    decreases k
  {
    if k == 0 {
      JoinedEquals(high, m, width, n);
    } else {
      assert Low(n, width) / 2 == Low(n / 2, width - 1);
      JoinedPrefixAgrees(high, m / 2, width - 1, n / 2, k - 1);
    }
  }
}
