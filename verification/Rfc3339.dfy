/** Timestamps are stored as text and compared by SQL as text. This module proves that
    the text order of `DateTime<Utc>::to_rfc3339` is the time order. */
module Rfc3339 {
  import opened Base

  /** A UTC instant as calendar fields; chrono prints years 0..9999 with four digits. */
  datatype Utc = Utc(year: nat, month: nat, day: nat, hour: nat, minute: nat, second: nat, nanos: nat)

  predicate Leap(y: nat) { y % 4 == 0 && (y % 100 != 0 || y % 400 == 0) }

  function DaysIn(y: nat, m: nat): nat
  {
    if m == 2 then if Leap(y) then 29 else 28
    else if m == 4 || m == 6 || m == 9 || m == 11 then 30
    else 31
  }

  predicate Valid(t: Utc)
  {
    && t.year <= 9999 && 1 <= t.month <= 12 && 1 <= t.day <= DaysIn(t.year, t.month)
    && t.hour < 24 && t.minute < 60 && t.second < 60 && t.nanos < 1_000_000_000
  }

  // ---------------------------------------------------------------- the instant

  function DaysBeforeMonth(y: nat, m: nat): nat
  {
    if m <= 1 then 0 else DaysBeforeMonth(y, m - 1) + DaysIn(y, m - 1)
  }

  function DaysBeforeYear(y: nat): nat
  {
    if y == 0 then 0 else DaysBeforeYear(y - 1) + DaysBeforeMonth(y - 1, 13)
  }

  function Days(t: Utc): nat
    requires t.day >= 1
  {
    DaysBeforeYear(t.year) + DaysBeforeMonth(t.year, t.month) + t.day - 1
  }

  /** Nanoseconds since 0000-01-01T00:00:00Z. */
  function Instant(t: Utc): nat
    requires t.day >= 1
  {
    (((Days(t) * 24 + t.hour) * 60 + t.minute) * 60 + t.second) * 1_000_000_000 + t.nanos
  }

  // ---------------------------------------------------------------- the text

  /** `n` in exactly `w` digits, zero-padded. */
  function Digits(n: nat, w: nat): string
  {
    if w == 0 then [] else Digits(n / 10, w - 1) + [DigitChar(n % 10)]
  }

  const ZONE: string := "+00:00"

  /** How many digits the automatic precision prints for a non-zero fraction. */
  function Precision(nanos: nat): nat
  {
    if nanos % 1_000_000 == 0 then 3 else if nanos % 1_000 == 0 then 6 else 9
  }

  function Shown(nanos: nat): string
  {
    match Precision(nanos)
    case 3 => Digits(nanos / 1_000_000, 3)
    case 6 => Digits(nanos / 1_000, 6)
    case _ => Digits(nanos, 9)
  }

  /** `%.f` (nothing at all for a whole second), then the offset. */
  function Fraction(nanos: nat): string
  {
    if nanos == 0 then ZONE else "." + (Shown(nanos) + ZONE)
  }

  const WIDTHS: seq<nat> := [4, 2, 2, 2, 2, 2]
  const MARKS: seq<string> := ["-", "-", "T", ":", ":", ""]

  function Fields(t: Utc): (f: seq<nat>)
    ensures |f| == 6
  {
    [t.year, t.month, t.day, t.hour, t.minute, t.second]
  }

  /** The fixed-width fields from the `k`th on, each followed by its mark, then `tail`. */
  function Render(f: seq<nat>, k: nat, tail: string): string
    requires |f| == 6 && k <= 6
    decreases 6 - k
  {
    if k == 6 then tail else Digits(f[k], WIDTHS[k]) + MARKS[k] + Render(f, k + 1, tail)
  }

  function Text(t: Utc): string { Render(Fields(t), 0, Fraction(t.nanos)) }

  /** SQLite's BINARY collation: bytewise, a proper prefix first. */
  predicate StrLess(x: string, y: string)
  {
    y != [] && (x == [] || x[0] < y[0] || (x[0] == y[0] && StrLess(x[1..], y[1..])))
  }

  // ---------------------------------------------------------------- order of strings

  lemma {:induction false} StrLessAsymmetric(x: string, y: string)
    ensures !(StrLess(x, y) && StrLess(y, x))
    ensures !StrLess(x, x)
  {
    if x != [] {
      StrLessAsymmetric(x[1..], if y == [] then [] else y[1..]);
    }
  }

  lemma {:induction false} StrLessPrefix(p: string, x: string, y: string)
    ensures StrLess(p + x, p + y) <==> StrLess(x, y)
  {
    if p == [] {
      assert p + x == x && p + y == y;
    } else {
      assert (p + x)[1..] == p[1..] + x && (p + y)[1..] == p[1..] + y;
      StrLessPrefix(p[1..], x, y);
    }
  }

  function Pow10(k: nat): (p: nat)
    ensures p > 0
  {
    if k == 0 then 1 else 10 * Pow10(k - 1)
  }

  /** Smaller numbers of one width sort first, whatever follows them. */
  lemma {:induction false} DigitsLess(a: nat, b: nat, w: nat, x: string, y: string)
    requires a < b < Pow10(w)
    ensures StrLess(Digits(a, w) + x, Digits(b, w) + y)
  {
    var x', y' := [DigitChar(a % 10)] + x, [DigitChar(b % 10)] + y;
    assert Digits(a, w) + x == Digits(a / 10, w - 1) + x';
    assert Digits(b, w) + y == Digits(b / 10, w - 1) + y';
    if a / 10 < b / 10 {
      DigitsLess(a / 10, b / 10, w - 1, x', y');
    } else {
      assert a % 10 < b % 10;
      StrLessPrefix(Digits(a / 10, w - 1), x', y');
    }
  }

  /** `hi` with `k` zeros appended. */
  function Shifted(hi: nat, k: nat): nat { if k == 0 then hi else 10 * Shifted(hi, k - 1) }

  lemma TimesTen(hi: nat, p: nat)
    ensures hi * (10 * p) == 10 * (hi * p)
  {
  }

  lemma {:induction false} ShiftedIs(hi: nat, k: nat)
    ensures Shifted(hi, k) == hi * Pow10(k)
  {
    if k > 0 {
      ShiftedIs(hi, k - 1);
      TimesTen(hi, Pow10(k - 1));
    }
  }

  lemma {:induction false} DigitsSplit(hi: nat, lo: nat, w: nat, k: nat)
    requires lo < Pow10(k)
    ensures Digits(Shifted(hi, k) + lo, w + k) == Digits(hi, w) + Digits(lo, k)
  {
    if k > 0 {
      DigitsSplit(hi, lo / 10, w, k - 1);
      assert (Shifted(hi, k) + lo) / 10 == Shifted(hi, k - 1) + lo / 10;
      assert (Shifted(hi, k) + lo) % 10 == lo % 10;
    }
  }

  /** A fraction cut short after `w` digits against one with `k` digits more: the offset
      sign sorts before every digit. */
  lemma ShorterFractionLess(a: nat, n: nat, hi: nat, lo: nat, w: nat, k: nat, p: nat)
    requires p == Pow10(k) && n == hi * p + lo
    requires a <= hi < Pow10(w) && 0 < lo < p
    ensures StrLess(Digits(a, w) + ZONE, Digits(n, w + k) + ZONE)
  {
    ShiftedIs(hi, k);
    DigitsSplit(hi, lo, w, k);
    var y := Digits(lo, k) + ZONE;
    assert Digits(n, w + k) + ZONE == Digits(hi, w) + y;
    if a < hi {
      DigitsLess(a, hi, w, ZONE, y);
    } else {
      DigitsShape(lo, k);
      StrLessPrefix(Digits(a, w), ZONE, y);
    }
  }

  lemma {:induction false} DigitsShape(n: nat, w: nat)
    ensures |Digits(n, w)| == w && AllDigits(Digits(n, w))
  {
    if w > 0 { DigitsShape(n / 10, w - 1); }
  }

  lemma LongerFractionLess(m: nat, hi: nat, lo: nat, b: nat, w: nat, k: nat, p: nat)
    requires p == Pow10(k) && m == hi * p + lo
    requires hi < b < Pow10(w) && lo < p
    ensures StrLess(Digits(m, w + k) + ZONE, Digits(b, w) + ZONE)
  {
    ShiftedIs(hi, k);
    DigitsSplit(hi, lo, w, k);
    assert Digits(m, w + k) + ZONE == Digits(hi, w) + (Digits(lo, k) + ZONE);
    DigitsLess(hi, b, w, Digits(lo, k) + ZONE, ZONE);
  }

  lemma Pow10Values()
    ensures Pow10(2) == 100 && Pow10(3) == 1_000 && Pow10(4) == 10_000
    ensures Pow10(6) == 1_000_000 && Pow10(9) == 1_000_000_000
  {
    assert Pow10(3) == 1_000;
    assert Pow10(6) == 1_000_000;
  }

  lemma ShorterShownLess(m: nat, n: nat)
    requires m < n < 1_000_000_000 && Precision(m) < Precision(n)
    ensures StrLess(Shown(m) + ZONE, Shown(n) + ZONE)
  {
    Pow10Values();
    if Precision(n) == 6 {
      ShorterFractionLess(m / 1_000_000, n / 1_000, n / 1_000_000, n / 1_000 % 1_000, 3, 3, 1_000);
    } else if Precision(m) == 3 {
      ShorterFractionLess(m / 1_000_000, n, n / 1_000_000, n % 1_000_000, 3, 6, 1_000_000);
    } else {
      ShorterFractionLess(m / 1_000, n, n / 1_000, n % 1_000, 6, 3, 1_000);
    }
  }

  lemma LongerShownLess(m: nat, n: nat)
    requires m < n < 1_000_000_000 && Precision(m) > Precision(n)
    ensures StrLess(Shown(m) + ZONE, Shown(n) + ZONE)
  {
    Pow10Values();
    if Precision(m) == 6 {
      LongerFractionLess(m / 1_000, m / 1_000_000, m / 1_000 % 1_000, n / 1_000_000, 3, 3, 1_000);
    } else if Precision(n) == 3 {
      LongerFractionLess(m, m / 1_000_000, m % 1_000_000, n / 1_000_000, 3, 6, 1_000_000);
    } else {
      LongerFractionLess(m, m / 1_000, m % 1_000, n / 1_000, 6, 3, 1_000);
    }
  }

  lemma FractionLess(m: nat, n: nat)
    requires m < n < 1_000_000_000
    ensures StrLess(Fraction(m), Fraction(n))
  {
    if m > 0 {
      StrLessPrefix(".", Shown(m) + ZONE, Shown(n) + ZONE);
      if Precision(m) < Precision(n) {
        ShorterShownLess(m, n);
      } else if Precision(m) > Precision(n) {
        LongerShownLess(m, n);
      } else {
        Pow10Values();
        match Precision(m) {
          case 3 => DigitsLess(m / 1_000_000, n / 1_000_000, 3, ZONE, ZONE);
          case 6 => DigitsLess(m / 1_000, n / 1_000, 6, ZONE, ZONE);
          case _ => DigitsLess(m, n, 9, ZONE, ZONE);
        }
      }
    }
  }

  // ---------------------------------------------------------------- order of instants

  /** The first field that differs, from the `k`th on, is smaller in `f`. */
  predicate FieldsLess(f: seq<nat>, g: seq<nat>, k: nat)
    requires |f| == |g| == 6 && k <= 6
    decreases 6 - k
  {
    k < 6 && (f[k] < g[k] || (f[k] == g[k] && FieldsLess(f, g, k + 1)))
  }

  ghost predicate Before(s: Utc, t: Utc)
  {
    FieldsLess(Fields(s), Fields(t), 0) || (Fields(s) == Fields(t) && s.nanos < t.nanos)
  }

  predicate SameFields(f: seq<nat>, g: seq<nat>, k: nat)
    requires |f| == |g| == 6 && k <= 6
    decreases 6 - k
  {
    k == 6 || (f[k] == g[k] && SameFields(f, g, k + 1))
  }

  lemma FieldFirst(d: string, m: string, rest: string)
    ensures d + m + rest == d + (m + rest)
  {
  }

  lemma SmallerFieldLess(a: nat, b: nat, w: nat, m: string, x: string, y: string)
    requires a < b < Pow10(w)
    ensures StrLess(Digits(a, w) + m + x, Digits(b, w) + m + y)
  {
    FieldFirst(Digits(a, w), m, x);
    FieldFirst(Digits(b, w), m, y);
    DigitsLess(a, b, w, m + x, m + y);
  }

  lemma SameFieldLess(d: string, m: string, x: string, y: string)
    requires StrLess(x, y)
    ensures StrLess(d + m + x, d + m + y)
  {
    StrLessPrefix(d + m, x, y);
  }

  lemma {:induction false} RenderLess(f: seq<nat>, g: seq<nat>, k: nat, x: string, y: string)
    requires |f| == |g| == 6 && k <= 6
    requires forall i :: 0 <= i < 6 ==> f[i] < Pow10(WIDTHS[i]) && g[i] < Pow10(WIDTHS[i])
    requires FieldsLess(f, g, k) || (SameFields(f, g, k) && StrLess(x, y))
    ensures StrLess(Render(f, k, x), Render(g, k, y))
    decreases 6 - k
  {
    if k < 6 {
      var rf, rg := Render(f, k + 1, x), Render(g, k + 1, y);
      if f[k] < g[k] {
        SmallerFieldLess(f[k], g[k], WIDTHS[k], MARKS[k], rf, rg);
      } else {
        RenderLess(f, g, k + 1, x, y);
        SameFieldLess(Digits(f[k], WIDTHS[k]), MARKS[k], rf, rg);
      }
    }
  }

  lemma {:induction false} EqualFields(f: seq<nat>, k: nat)
    requires |f| == 6 && k <= 6
    ensures SameFields(f, f, k)
    decreases 6 - k
  {
    if k < 6 { EqualFields(f, k + 1); }
  }

  lemma TextLess(s: Utc, t: Utc)
    requires Valid(s) && Valid(t) && Before(s, t)
    ensures StrLess(Text(s), Text(t))
  {
    Pow10Values();
    if s.nanos < t.nanos { FractionLess(s.nanos, t.nanos); }
    var f, g := Fields(s), Fields(t);
    if f == g { EqualFields(f, 0); }
    RenderLess(f, g, 0, Fraction(s.nanos), Fraction(t.nanos));
  }

  lemma {:induction false} MonthsGrow(y: nat, m: nat, n: nat)
    requires 1 <= m < n
    ensures DaysBeforeMonth(y, m) + DaysIn(y, m) <= DaysBeforeMonth(y, n)
  {
    if m + 1 < n { MonthsGrow(y, m, n - 1); }
  }

  lemma {:induction false} YearsGrow(y: nat, z: nat)
    requires y < z
    ensures DaysBeforeYear(y) + DaysBeforeMonth(y, 13) <= DaysBeforeYear(z)
  {
    if y + 1 < z { YearsGrow(y, z - 1); }
  }

  lemma DaysGrow(s: Utc, t: Utc)
    requires Valid(s) && Valid(t)
    requires s.year < t.year || (s.year == t.year && (s.month < t.month || (s.month == t.month && s.day < t.day)))
    ensures Days(s) < Days(t)
  {
    if s.year < t.year {
      YearsGrow(s.year, t.year);
      MonthsGrow(s.year, s.month, 13);
    } else if s.month < t.month {
      MonthsGrow(s.year, s.month, t.month);
    }
  }

  lemma InstantGrows(s: Utc, t: Utc)
    requires Valid(s) && Valid(t) && Before(s, t)
    ensures Instant(s) < Instant(t)
  {
    var f, g := Fields(s), Fields(t);
    assert FieldsLess(f, g, 3) ==> f[3] < g[3] || f[4] < g[4] || f[5] < g[5];
    if s.year != t.year || s.month != t.month || s.day != t.day { DaysGrow(s, t); }
  }

  lemma BeforeIsTotal(s: Utc, t: Utc)
    ensures s == t || Before(s, t) || Before(t, s)
  {
    if Fields(s) == Fields(t) {
      var f, g := Fields(s), Fields(t);
      assert f[0] == g[0] && f[1] == g[1] && f[2] == g[2] && f[3] == g[3] && f[4] == g[4] && f[5] == g[5];
    }
  }

  /** Text order is time order, and the text determines the instant, although the texts
      have four different lengths. */
  lemma TextOrderIsTimeOrder(s: Utc, t: Utc)
    requires Valid(s) && Valid(t)
    ensures StrLess(Text(s), Text(t)) <==> Instant(s) < Instant(t)
    ensures Text(s) == Text(t) <==> Instant(s) == Instant(t)
    ensures Instant(s) == Instant(t) <==> s == t
  {
    BeforeIsTotal(s, t);
    StrLessAsymmetric(Text(s), Text(t));
    if Before(s, t) { TextLess(s, t); InstantGrows(s, t); }
    if Before(t, s) { TextLess(t, s); InstantGrows(t, s); }
  }

  // ---------------------------------------------------------------- the format

  lemma RenderEnd(f: seq<nat>, tail: string)
    requires |f| == 6
    ensures Render(f, 3, tail) == Digits(f[3], 2) + ":" + (Digits(f[4], 2) + ":" + (Digits(f[5], 2) + "" + tail))
  {
    assert Render(f, 6, tail) == tail;
    assert Render(f, 5, tail) == Digits(f[5], 2) + "" + tail;
    assert Render(f, 4, tail) == Digits(f[4], 2) + ":" + Render(f, 5, tail);
  }

  /** Date, time of day and offset in the punctuation of RFC 3339. */
  lemma TextShape(t: Utc)
    ensures Text(t) == Digits(t.year, 4) + "-" + (Digits(t.month, 2) + "-" + (Digits(t.day, 2) + "T"
                         + (Digits(t.hour, 2) + ":" + (Digits(t.minute, 2) + ":" + (Digits(t.second, 2) + ""
                            + Fraction(t.nanos))))))
  {
    var f := Fields(t);
    RenderEnd(f, Fraction(t.nanos));
    assert Render(f, 2, Fraction(t.nanos)) == Digits(f[2], 2) + "T" + Render(f, 3, Fraction(t.nanos));
    assert Render(f, 1, Fraction(t.nanos)) == Digits(f[1], 2) + "-" + Render(f, 2, Fraction(t.nanos));
  }

  /** No fraction for a whole second, else the fewest of three, six and nine digits that lose
      nothing. */
  lemma FractionShape(nanos: nat)
    ensures nanos == 0 ==> Fraction(nanos) == "+00:00"
    ensures nanos != 0 && nanos % 1_000_000 == 0 ==> Fraction(nanos) == "." + (Digits(nanos / 1_000_000, 3) + "+00:00")
    ensures nanos % 1_000_000 != 0 && nanos % 1_000 == 0 ==>
              Fraction(nanos) == "." + (Digits(nanos / 1_000, 6) + "+00:00")
    ensures nanos % 1_000 != 0 ==> Fraction(nanos) == "." + (Digits(nanos, 9) + "+00:00")
  {
  }

  /** Fixed-width digits are the number, padded with zeros. */
  lemma {:induction false} DigitsValue(n: nat, w: nat)
    requires n < Pow10(w)
    ensures |Digits(n, w)| == w && AllDigits(Digits(n, w)) && Val(Digits(n, w)) == n
  {
    if w > 0 {
      DigitsValue(n / 10, w - 1);
      assert Digits(n, w)[..w - 1] == Digits(n / 10, w - 1);
    }
  }
}
