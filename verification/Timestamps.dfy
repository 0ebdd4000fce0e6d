/** Normalised timestamps are compared as texts by the trace reader
    (scripts/turn-trace.py). A UTC instant is printed without fraction or with
    exactly six digits; section 5.1 of RFC 3339 promises that text order is time
    order only for equal numbers of fraction digits. */
module Timestamps {
  import opened Decimals

  datatype Utc = Utc(year: nat, month: nat, day: nat, hour: nat, minute: nat, second: nat, micro: nat)

  predicate IsLeap(year: nat) {
    year % 4 == 0 && (year % 100 != 0 || year % 400 == 0)
  }

  function DaysInMonth(year: nat, month: nat): nat {
    if month == 2 then if IsLeap(year) then 29 else 28
    else if month in {4, 6, 9, 11} then 30
    else 31
  }

  predicate IsUtc(u: Utc) {
    && 1 <= u.year <= 9999 && 1 <= u.month <= 12 && 1 <= u.day <= DaysInMonth(u.year, u.month)
    && u.hour < 24 && u.minute < 60 && u.second < 60 && u.micro < 1_000_000
  }

  // ---- time order: microseconds since the first instant of year 1 ----

  function DaysBeforeYear(year: nat): int {
    var y := year - 1;
    y * 365 + y / 4 - y / 100 + y / 400
  }

  function DaysBeforeMonth(year: nat, month: nat): nat {
    if month <= 1 then 0 else DaysBeforeMonth(year, month - 1) + DaysInMonth(year, month - 1)
  }

  function Day(u: Utc): int {
    DaysBeforeYear(u.year) + DaysBeforeMonth(u.year, u.month) + u.day
  }

  function MicrosOfDay(u: Utc): nat {
    ((u.hour * 60 + u.minute) * 60 + u.second) * 1_000_000 + u.micro
  }

  const DAY_MICROS: nat := 86_400_000_000

  function Micros(u: Utc): int {
    Day(u) * DAY_MICROS + MicrosOfDay(u)
  }

  // ---- text order ----

  predicate TextLess(a: string, b: string)
    decreases |a|
  {
    b != "" && (a == "" || a[0] < b[0] || (a[0] == b[0] && TextLess(a[1..], b[1..])))
  }

  // ---- the printed form ----

  function Pad(n: nat, width: nat): (s: string)
    ensures |s| == width
    decreases width, n
  {
    if width == 0 then "" else Pad(n / 10, width - 1) + [DIGITS[n % 10]]
  }

  function Fraction(micro: nat): string {
    if micro == 0 then "" else "." + Pad(micro, 6)
  }

  function PrintWith(u: Utc, zone: string): string {
    Pad(u.year, 4) + ("-" + (Pad(u.month, 2) + ("-" + (Pad(u.day, 2) + ("T" + (Pad(u.hour, 2) + (":" +
      (Pad(u.minute, 2) + (":" + (Pad(u.second, 2) + (Fraction(u.micro) + zone)))))))))))
  }

  /** `isoformat` of an instant in UTC. */
  function PrintUtc(u: Utc): string {
    PrintWith(u, "+00:00")
  }

  /** Year, month, day, hour, minute and second stand at fixed places, and six digits behind
      them exactly for an instant that is not a whole second. */
  lemma PrintedShape(u: Utc)
    ensures var s := PrintUtc(u);
      && |s| == (if u.micro == 0 then 25 else 32)
      && s[4] == '-' && s[7] == '-' && s[10] == 'T' && s[13] == ':' && s[16] == ':'
      && (u.micro != 0 ==> s[19] == '.') && s[|s| - 6..] == "+00:00"
      && s[..4] == Pad(u.year, 4) && s[5..7] == Pad(u.month, 2) && s[8..10] == Pad(u.day, 2)
      && s[11..13] == Pad(u.hour, 2) && s[14..16] == Pad(u.minute, 2) && s[17..19] == Pad(u.second, 2)
      && (u.micro != 0 ==> s[20..26] == Pad(u.micro, 6))
  {
    var rest, s := Time(u, "+00:00"), PrintUtc(u);
    TimeShape(u, "+00:00");
    DateShape(u, rest);
    assert s[11..] == rest;
    assert s[11..13] == rest[..2] && s[14..16] == rest[3..5] && s[17..19] == rest[6..8];
    assert s[|s| - 6..] == rest[|rest| - 6..];
    assert u.micro != 0 ==> s[20..26] == rest[9..15];
  }

  lemma DateShape(u: Utc, rest: string)
    ensures var s := Pad(u.year, 4) + ("-" + (Pad(u.month, 2) + ("-" + (Pad(u.day, 2) + ("T" + rest)))));
      && |s| == 11 + |rest| && s[11..] == rest && s[4] == '-' && s[7] == '-' && s[10] == 'T'
      && s[..4] == Pad(u.year, 4) && s[5..7] == Pad(u.month, 2) && s[8..10] == Pad(u.day, 2)
  {
    var d := "-" + (Pad(u.day, 2) + ("T" + rest));
    var m := "-" + (Pad(u.month, 2) + d);
    var s := Pad(u.year, 4) + m;
    assert s[4..] == m && s[7..] == d;
  }

  lemma TimeShape(u: Utc, zone: string)
    requires |zone| == 6
    ensures var s := Time(u, zone);
      && |s| == (if u.micro == 0 then 14 else 21) && s[2] == ':' && s[5] == ':' && s[|s| - 6..] == zone
      && s[..2] == Pad(u.hour, 2) && s[3..5] == Pad(u.minute, 2) && s[6..8] == Pad(u.second, 2)
      && (u.micro != 0 ==> s[8] == '.' && s[9..15] == Pad(u.micro, 6))
  {
    var f := Fraction(u.micro) + zone;
    var s := Time(u, zone);
    assert s[3..] == Pad(u.minute, 2) + (":" + (Pad(u.second, 2) + f));
    assert s[6..] == Pad(u.second, 2) + f && s[8..] == f;
    assert u.micro != 0 ==> s[9..15] == f[1..7];
  }

  // ---- comparing printed forms ----

  function Bound(width: nat): (b: nat)
    ensures b >= 1
  {
    if width == 0 then 1 else 10 * Bound(width - 1)
  }

  lemma HeadDecides(c: char, s: string, d: char, t: string)
    ensures TextLess([c] + s, [d] + t) <==> c < d || (c == d && TextLess(s, t))
  {
    assert ([c] + s)[1..] == s && ([d] + t)[1..] == t;
  }

  lemma SameStart(c: char, s: string, t: string)
    ensures TextLess([c] + s, [c] + t) <==> TextLess(s, t)
  {
    HeadDecides(c, s, c, t);
  }

  /** Numerals of equal width in front decide first, and by value. */
  lemma {:induction false} PaddedOrder(m: nat, n: nat, width: nat, s: string, t: string)
    requires m < Bound(width) && n < Bound(width)
    ensures TextLess(Pad(m, width) + s, Pad(n, width) + t) <==> m < n || (m == n && TextLess(s, t))
    decreases width
  {
    if width == 0 {
      assert Pad(m, 0) + s == s && Pad(n, 0) + t == t;
    } else {
      var c, d := DIGITS[m % 10], DIGITS[n % 10];
      assert Pad(m, width) + s == Pad(m / 10, width - 1) + ([c] + s);
      assert Pad(n, width) + t == Pad(n / 10, width - 1) + ([d] + t);
      PaddedOrder(m / 10, n / 10, width - 1, [c] + s, [d] + t);
      HeadDecides(c, s, d, t);
      DigitOrder(m % 10, n % 10);
    }
  }

  lemma DigitOrder(m: nat, n: nat)
    requires m < 10 && n < 10
    ensures DIGITS[m] < DIGITS[n] <==> m < n
    ensures DIGITS[m] == DIGITS[n] <==> m == n
  {
    assert forall k :: 0 <= k < 10 ==> DIGITS[k] == '0' + k as char;
  }

  lemma {:induction false} NotBelowItself(s: string)
    ensures !TextLess(s, s)
    decreases |s|
  {
    if s != "" {
      NotBelowItself(s[1..]);
    }
  }

  /** The critical step: a missing fraction sorts before any fraction exactly
      because the zone starts with a character below the decimal point. */
  lemma FractionOrder(m: nat, n: nat, zone: string)
    requires m < Bound(6) && n < Bound(6) && zone != "" && zone[0] < '.'
    ensures TextLess(Fraction(m) + zone, Fraction(n) + zone) <==> m < n
  {
    FractionParts(m, zone);
    FractionParts(n, zone);
    NotBelowItself(zone);
    if m == 0 && n > 0 {
      HeadDecides(zone[0], zone[1..], '.', Pad(n, 6) + zone);
    } else if m > 0 && n == 0 {
      HeadDecides('.', Pad(m, 6) + zone, zone[0], zone[1..]);
    } else if m > 0 {
      SameStart('.', Pad(m, 6) + zone, Pad(n, 6) + zone);
      PaddedOrder(m, n, 6, zone, zone);
    }
  }

  lemma FractionParts(m: nat, zone: string)
    requires zone != ""
    ensures m == 0 ==> Fraction(m) + zone == zone == [zone[0]] + zone[1..]
    ensures m != 0 ==> Fraction(m) + zone == ['.'] + (Pad(m, 6) + zone)
  {
    if m == 0 {
      assert Fraction(m) + zone == zone;
    }
  }

  predicate FieldsLess(a: Utc, b: Utc) {
    a.year < b.year || (a.year == b.year && (
    a.month < b.month || (a.month == b.month && (
    a.day < b.day || (a.day == b.day && (
    a.hour < b.hour || (a.hour == b.hour && (
    a.minute < b.minute || (a.minute == b.minute && (
    a.second < b.second || (a.second == b.second && a.micro < b.micro)))))))))))
  }

  lemma SeparatedOrder(m: nat, n: nat, width: nat, c: char, s: string, t: string)
    requires m < Bound(width) && n < Bound(width)
    ensures TextLess(Pad(m, width) + ([c] + s), Pad(n, width) + ([c] + t)) <==> m < n || (m == n && TextLess(s, t))
  {
    PaddedOrder(m, n, width, [c] + s, [c] + t);
    SameStart(c, s, t);
  }

  function Seconds(u: Utc, zone: string): string {
    Pad(u.second, 2) + (Fraction(u.micro) + zone)
  }

  function Time(u: Utc, zone: string): string {
    Pad(u.hour, 2) + (":" + (Pad(u.minute, 2) + (":" + Seconds(u, zone))))
  }

  lemma Bounds()
    ensures Bound(2) == 100 && Bound(4) == 10_000 && Bound(6) == 1_000_000
  {
    assert Bound(1) == 10;
    assert Bound(3) == 1000;
  }

  lemma TimeOrder(a: Utc, b: Utc, zone: string)
    requires IsUtc(a) && IsUtc(b) && zone != "" && zone[0] < '.'
    ensures TextLess(Time(a, zone), Time(b, zone)) <==>
      a.hour < b.hour || (a.hour == b.hour && (
      a.minute < b.minute || (a.minute == b.minute && (
      a.second < b.second || (a.second == b.second && a.micro < b.micro)))))
  {
    Bounds();
    FractionOrder(a.micro, b.micro, zone);
    PaddedOrder(a.second, b.second, 2, Fraction(a.micro) + zone, Fraction(b.micro) + zone);
    SeparatedOrder(a.minute, b.minute, 2, ':', Seconds(a, zone), Seconds(b, zone));
    SeparatedOrder(a.hour, b.hour, 2, ':', Pad(a.minute, 2) + (":" + Seconds(a, zone)), Pad(b.minute, 2) + (":" + Seconds(b, zone)));
  }

  lemma PrintedOrder(a: Utc, b: Utc, zone: string)
    requires IsUtc(a) && IsUtc(b) && zone != "" && zone[0] < '.'
    ensures TextLess(PrintWith(a, zone), PrintWith(b, zone)) <==> FieldsLess(a, b)
  {
    Bounds();
    TimeOrder(a, b, zone);
    var s, t := Pad(a.day, 2) + ("T" + Time(a, zone)), Pad(b.day, 2) + ("T" + Time(b, zone));
    var p, q := Pad(a.month, 2) + ("-" + s), Pad(b.month, 2) + ("-" + t);
    SeparatedOrder(a.day, b.day, 2, 'T', Time(a, zone), Time(b, zone));
    SeparatedOrder(a.month, b.month, 2, '-', s, t);
    SeparatedOrder(a.year, b.year, 4, '-', p, q);
    assert PrintWith(a, zone) == Pad(a.year, 4) + ("-" + p);
    assert PrintWith(b, zone) == Pad(b.year, 4) + ("-" + q);
  }

  // ---- fields in calendar order are instants in time order ----

  lemma YearLength(year: nat)
    requires year >= 1
    ensures DaysBeforeYear(year + 1) == DaysBeforeYear(year) + (if IsLeap(year) then 366 else 365)
  {
    var y := year;
    assert y / 4 == (y - 1) / 4 + if y % 4 == 0 then 1 else 0;
    assert y / 100 == (y - 1) / 100 + if y % 100 == 0 then 1 else 0;
    assert y / 400 == (y - 1) / 400 + if y % 400 == 0 then 1 else 0;
  }

  lemma {:induction false} EarlierYear(y: nat, z: nat)
    requires 1 <= y < z
    ensures DaysBeforeYear(y) + (if IsLeap(y) then 366 else 365) <= DaysBeforeYear(z)
    decreases z
  {
    YearLength(z - 1);
    if y < z - 1 {
      EarlierYear(y, z - 1);
    }
  }

  lemma {:induction false} EarlierMonth(year: nat, m: nat, n: nat)
    requires 1 <= m < n
    ensures DaysBeforeMonth(year, m) + DaysInMonth(year, m) <= DaysBeforeMonth(year, n)
    decreases n
  {
    if m < n - 1 {
      EarlierMonth(year, m, n - 1);
    }
  }

  lemma MonthEndsInYear(u: Utc)
    requires IsUtc(u)
    ensures DaysBeforeMonth(u.year, u.month) + u.day <= if IsLeap(u.year) then 366 else 365
  {
    if u.month < 12 {
      EarlierMonth(u.year, u.month, 12);
    }
    MonthStep(u.year, 1);
    MonthStep(u.year, 2);
    MonthStep(u.year, 3);
    MonthStep(u.year, 4);
    MonthStep(u.year, 5);
    MonthStep(u.year, 6);
    MonthStep(u.year, 7);
    MonthStep(u.year, 8);
    MonthStep(u.year, 9);
    MonthStep(u.year, 10);
    MonthStep(u.year, 11);
  }

  lemma MonthStep(year: nat, month: nat)
    requires month >= 1
    ensures DaysBeforeMonth(year, month + 1) == DaysBeforeMonth(year, month) + DaysInMonth(year, month)
    ensures month == 1 ==> DaysBeforeMonth(year, month) == 0
  {
  }

  predicate DateLess(a: Utc, b: Utc) {
    a.year < b.year || (a.year == b.year && (a.month < b.month || (a.month == b.month && a.day < b.day)))
  }

  lemma EarlierDate(a: Utc, b: Utc)
    requires IsUtc(a) && IsUtc(b) && DateLess(a, b)
    ensures Day(a) < Day(b)
  {
    if a.year < b.year {
      EarlierYear(a.year, b.year);
      MonthEndsInYear(a);
    } else if a.month < b.month {
      EarlierMonth(a.year, a.month, b.month);
    }
  }

  lemma EarlierFields(a: Utc, b: Utc)
    requires IsUtc(a) && IsUtc(b) && FieldsLess(a, b)
    ensures Micros(a) < Micros(b)
  {
    assert MicrosOfDay(a) < DAY_MICROS && MicrosOfDay(b) < DAY_MICROS;
    if DateLess(a, b) {
      EarlierDate(a, b);
    } else {
      assert Day(a) == Day(b) && MicrosOfDay(a) < MicrosOfDay(b);
    }
  }

  /** For all instants of the years 1 to 9999, comparing the normalised texts is
      comparing the instants. */
  lemma TextOrderIsTimeOrder(a: Utc, b: Utc)
    requires IsUtc(a) && IsUtc(b)
    ensures TextLess(PrintUtc(a), PrintUtc(b)) <==> Micros(a) < Micros(b)
    ensures PrintUtc(a) == PrintUtc(b) <==> a == b
    ensures Micros(a) == Micros(b) <==> a == b
  {
    PrintedOrder(a, b, "+00:00");
    PrintedOrder(b, a, "+00:00");
    NotBelowItself(PrintUtc(a));
    if FieldsLess(a, b) {
      EarlierFields(a, b);
    } else if FieldsLess(b, a) {
      EarlierFields(b, a);
    }
  }

  /** With a zone like `Z`, which sorts behind the decimal point, the texts of an
      instant and of one a microsecond later stand the wrong way round. */
  lemma ZuluOrderFails(zone: string)
    requires zone != "" && zone[0] > '.'
    ensures exists a, b :: IsUtc(a) && IsUtc(b) && Micros(a) < Micros(b) && TextLess(PrintWith(b, zone), PrintWith(a, zone))
  {
    var a, b := Utc(2026, 11, 7, 1, 0, 0, 0), Utc(2026, 11, 7, 1, 0, 0, 1);
    EarlierFields(a, b);
    assert Fraction(a.micro) + zone == [zone[0]] + zone[1..];
    assert Fraction(b.micro) + zone == ['.'] + (Pad(b.micro, 6) + zone);
    HeadDecides('.', Pad(b.micro, 6) + zone, zone[0], zone[1..]);
    OnlyFractionDecides(b, a, zone);
  }

  lemma OnlyFractionDecides(a: Utc, b: Utc, zone: string)
    requires IsUtc(a) && b == a.(micro := b.micro)
    ensures TextLess(PrintWith(a, zone), PrintWith(b, zone)) <==>
            TextLess(Fraction(a.micro) + zone, Fraction(b.micro) + zone)
  {
    Bounds();
    var s, t := Seconds(a, zone), Seconds(b, zone);
    PaddedOrder(a.second, b.second, 2, Fraction(a.micro) + zone, Fraction(b.micro) + zone);
    SeparatedOrder(a.minute, b.minute, 2, ':', s, t);
    SeparatedOrder(a.hour, b.hour, 2, ':', Pad(a.minute, 2) + (":" + s), Pad(b.minute, 2) + (":" + t));
    var u, v := Pad(a.day, 2) + ("T" + Time(a, zone)), Pad(b.day, 2) + ("T" + Time(b, zone));
    SeparatedOrder(a.day, b.day, 2, 'T', Time(a, zone), Time(b, zone));
    SeparatedOrder(a.month, b.month, 2, '-', u, v);
    SeparatedOrder(a.year, b.year, 4, '-', Pad(a.month, 2) + ("-" + u), Pad(b.month, 2) + ("-" + v));
  }
}
