/**
 * The half-open month window `[start, end)` that the transaction queries of
 * src-tauri/src/lib.rs build as text, and the order SQLite uses to compare
 * TEXT values.  Dates are calendar dates in the extended format YYYY-MM-DD of
 * ISO 8601:2004, section 4.1.2.2.
 */
module MonthWindow {

  // ---------------------------------------------------------------------------
  // Decimal digits
  // ---------------------------------------------------------------------------

  predicate IsDigit(c: char) { '0' <= c <= '9' }

  predicate AllDigits(s: string) { forall i :: 0 <= i < |s| ==> IsDigit(s[i]) }

  function DigitChar(d: nat): (c: char)
    requires d < 10
    ensures IsDigit(c)
  {
    ('0' as int + d) as char
  }

  function DigitValue(c: char): (d: nat)
    requires IsDigit(c)
    ensures d < 10 && DigitChar(d) == c
  {
    c as int - '0' as int
  }

  function Pow10(k: nat): (p: nat)
    ensures p >= 1
  {
    if k == 0 then 1 else 10 * Pow10(k - 1)
  }

  /** The number a string of decimal digits denotes, most significant digit first. */
  function Value(s: string): nat
    requires AllDigits(s)
  {
    if s == [] then 0 else Value(s[..|s| - 1]) * 10 + DigitValue(s[|s| - 1])
  }

  /** The shortest decimal spelling of `n`, as Rust's `Display` writes an integer. */
  function Decimal(n: nat): (s: string)
    ensures |s| >= 1 && AllDigits(s)
    ensures Value(s) == n
  {
    if n < 10 then [DigitChar(n)]
    else
      var s := Decimal(n / 10) + [DigitChar(n % 10)];
      assert s[..|s| - 1] == Decimal(n / 10);
      s
  }

  function Zeros(k: nat): (z: string)
    ensures |z| == k && AllDigits(z)
  {
    seq(k, _ => '0')
  }

  /** Left-pads `s` with '0' up to `width` characters; a longer `s` is kept whole. */
  function ZeroPad(s: string, width: nat): (r: string)
    ensures |r| == if |s| >= width then |s| else width
    ensures AllDigits(s) ==> AllDigits(r) && Value(r) == Value(s)
  {
    if |s| >= width then s
    else
      var z := Zeros(width - |s|);
      ValueOfZeros(width - |s|);
      if AllDigits(s) then
        ValueAppend(z, s);
        assert Value(z) * Pow10(|s|) == 0;
        z + s
      else z + s
  }

  /**
   * Rust's `format!("{n:0w}")` for a signed integer: the sign counts towards the
   * width and the zeros go between the sign and the digits.
   */
  function Format(n: int, width: nat): (r: string)
    ensures n >= 0 ==> AllDigits(r) && Value(r) == n
    ensures n >= 0 ==> |r| == if |Decimal(n)| >= width then |Decimal(n)| else width
    ensures n < 0 ==> |r| >= 1 && r[0] == '-' && AllDigits(r[1..]) && Value(r[1..]) == -n
    ensures n < 0 ==> |r| == if |Decimal(-n)| >= width then |Decimal(-n)| + 1 else width
  {
    if n < 0 then "-" + ZeroPad(Decimal(-n), if width == 0 then 0 else width - 1)
    else ZeroPad(Decimal(n), width)
  }

  lemma {:induction false} ValueAppend(s: string, t: string)
    requires AllDigits(s) && AllDigits(t)
    ensures AllDigits(s + t)
    ensures Value(s + t) == Value(s) * Pow10(|t|) + Value(t)
    decreases |t|
  {
    if t == [] {
      assert s + t == s;
    } else {
      var t' := t[..|t| - 1];
      var c := t[|t| - 1];
      assert (s + t)[..|s + t| - 1] == s + t';
      assert (s + t)[|s + t| - 1] == c;
      ValueAppend(s, t');
      var v, w, p := Value(s), Value(t'), Pow10(|t'|);
      assert Value(s + t) == Value(s + t') * 10 + DigitValue(c);
      assert Value(t) == w * 10 + DigitValue(c);
      assert Pow10(|t|) == 10 * p;
      MulShift(v, p, w);
    }
  }

  lemma MulShift(v: int, p: int, w: int)
    ensures (v * p + w) * 10 == v * (10 * p) + w * 10
  {
  }

  lemma {:induction false} ValueOfZeros(k: nat)
    ensures Value(Zeros(k)) == 0
  {
    if k > 0 {
      assert Zeros(k)[..k - 1] == Zeros(k - 1);
      ValueOfZeros(k - 1);
    }
  }

  lemma {:induction false} ValueBound(s: string)
    requires AllDigits(s)
    ensures Value(s) < Pow10(|s|)
  {
    if s != [] {
      ValueBound(s[..|s| - 1]);
    }
  }

  /** The leading digit carries the weight of the place it stands in. */
  lemma ValueFront(s: string)
    requires AllDigits(s) && |s| >= 1
    ensures AllDigits(s[1..])
    ensures Value(s) == DigitValue(s[0]) * Pow10(|s| - 1) + Value(s[1..])
  {
    var head, tail := [s[0]], s[1..];
    assert s == head + tail;
    assert AllDigits(head) && AllDigits(tail);
    assert Value(head) == DigitValue(s[0]) by {
      assert head[..0] == [];
    }
    ValueAppend(head, tail);
  }

  lemma {:induction false} DecimalLength(n: nat, k: nat)
    requires 1 <= k && n < Pow10(k)
    ensures |Decimal(n)| <= k
  {
    if n >= 10 {
      assert k >= 2;
      DecimalLength(n / 10, k - 1);
    }
  }

  /** A number below 10^width is written by `Format` in exactly `width` digits. */
  lemma FormatFixedWidth(n: int, width: nat)
    requires 1 <= width && 0 <= n < Pow10(width)
    ensures |Format(n, width)| == width && AllDigits(Format(n, width))
    ensures Value(Format(n, width)) == n
  {
    DecimalLength(n, width);
  }

  // ---------------------------------------------------------------------------
  // TEXT order
  // ---------------------------------------------------------------------------

  /**
   * `a < b` on SQLite TEXT values under the default BINARY collation: the first
   * differing character decides, and a proper prefix comes first.  Comparing
   * characters by code point agrees with comparing their UTF-8 bytes.
   */
  predicate TextLess(a: string, b: string)
    ensures TextLess(a, b) ==> a != b
    ensures |a| < |b| && a == b[..|a|] ==> TextLess(a, b)
  {
    if a == [] then b != []
    else if b == [] then false
    else if a[0] != b[0] then a[0] < b[0]
    else TextLess(a[1..], b[1..])
  }

  lemma {:induction false} TextLessIrreflexive(a: string)
    ensures !TextLess(a, a)
  {
    if a != [] {
      TextLessIrreflexive(a[1..]);
    }
  }

  lemma {:induction false} TextLessTransitive(a: string, b: string, c: string)
    ensures TextLess(a, b) && TextLess(b, c) ==> TextLess(a, c)
  {
    if a != [] && b != [] && c != [] && a[0] == b[0] && b[0] == c[0] {
      TextLessTransitive(a[1..], b[1..], c[1..]);
    }
  }

  lemma {:induction false} TextLessTotal(a: string, b: string)
    ensures a == b || TextLess(a, b) || TextLess(b, a)
  {
    if a != [] && b != [] && a[0] == b[0] {
      TextLessTotal(a[1..], b[1..]);
      if a[1..] == b[1..] {
        assert a == [a[0]] + a[1..] && b == [b[0]] + b[1..];
      }
    }
  }

  lemma {:induction false} TextLessAsymmetric(a: string, b: string)
    ensures TextLess(a, b) ==> !TextLess(b, a)
  {
    if a != [] && b != [] && a[0] == b[0] {
      TextLessAsymmetric(a[1..], b[1..]);
    }
  }

  /** Between strings whose heads have the same length, the heads decide first. */
  lemma {:induction false} TextLessConcat(a: string, b: string, c: string, d: string)
    requires |a| == |c|
    ensures TextLess(a + b, c + d) <==> TextLess(a, c) || (a == c && TextLess(b, d))
  {
    if a != [] {
      assert (a + b)[0] == a[0] && (c + d)[0] == c[0];
      assert (a + b)[1..] == a[1..] + b && (c + d)[1..] == c[1..] + d;
      TextLessConcat(a[1..], b, c[1..], d);
      if a[0] == c[0] && a[1..] == c[1..] {
        assert a == [a[0]] + a[1..] && c == [c[0]] + c[1..];
      }
    } else {
      assert a + b == b && c + d == d;
    }
  }

  /** Equal-length digit strings compare as text exactly as their numbers compare. */
  lemma {:induction false} DigitsOrder(s: string, t: string)
    requires AllDigits(s) && AllDigits(t) && |s| == |t|
    ensures TextLess(s, t) <==> Value(s) < Value(t)
  {
    if s != [] {
      ValueFront(s);
      ValueFront(t);
      var p := Pow10(|s| - 1);
      var a, b := DigitValue(s[0]), DigitValue(t[0]);
      ValueBound(s[1..]);
      ValueBound(t[1..]);
      if a < b {
        assert s[0] < t[0];
        WeightedDigitLess(a, b, p, Value(s[1..]), Value(t[1..]));
      } else if b < a {
        assert t[0] < s[0];
        WeightedDigitLess(b, a, p, Value(t[1..]), Value(s[1..]));
      } else {
        assert s[0] == t[0];
        DigitsOrder(s[1..], t[1..]);
      }
    }
  }

  /** A smaller leading digit outweighs anything the lower places add. */
  lemma WeightedDigitLess(a: nat, b: nat, p: nat, x: nat, y: nat)
    requires a < b && x < p
    ensures a * p + x < b * p + y
  {
    assert (a + 1) * p <= b * p;
  }

  /** Equal-length digit strings are equal exactly when their numbers are. */
  lemma DigitsEqual(s: string, t: string)
    requires AllDigits(s) && AllDigits(t) && |s| == |t|
    ensures s == t <==> Value(s) == Value(t)
  {
    if s != t {
      TextLessTotal(s, t);
      DigitsOrder(s, t);
      DigitsOrder(t, s);
    }
  }

  // ---------------------------------------------------------------------------
  // Calendar dates and the month window
  // ---------------------------------------------------------------------------

  /** Three fields joined by '-', as a date is written. */
  function Dashed(y: string, m: string, dd: string): string
  {
    y + "-" + m + "-" + dd
  }

  /** Ten characters laid out as four digits, '-', two digits, '-', two digits. */
  predicate DateShaped(d: string)
  {
    |d| == 10 && AllDigits(d[..4]) && d[4] == '-' && AllDigits(d[5..7]) && d[7] == '-' && AllDigits(d[8..])
  }

  /**
   * A date written YYYY-MM-DD with month 01..12 and day 01..31.  Days are not
   * checked against the length of their month: the window lemmas below hold for
   * every day from 01 on, so they hold in particular for real calendar dates.
   */
  predicate WellFormedDate(d: string)
  {
    DateShaped(d) && 1 <= Value(d[5..7]) <= 12 && 1 <= Value(d[8..]) <= 31
  }

  function DateYear(d: string): nat
    requires DateShaped(d)
  {
    Value(d[..4])
  }

  function DateMonth(d: string): nat
    requires DateShaped(d)
  {
    Value(d[5..7])
  }

  function DateDay(d: string): nat
    requires DateShaped(d)
  {
    Value(d[8..])
  }

  /** `d` is a well-formed date of the given year and month. */
  predicate InCalendarMonth(d: string, year: int, month: int)
  {
    WellFormedDate(d) && DateYear(d) == year && DateMonth(d) == month
  }

  /** The number YYYYMMDD a date-shaped string spells once its dashes are dropped. */
  function DateKey(d: string): (k: nat)
    requires DateShaped(d)
    ensures k == DateYear(d) * 10000 + DateMonth(d) * 100 + DateDay(d)
  {
    var y, m, dd := d[..4], d[5..7], d[8..];
    ValueAppend(y, m);
    ValueAppend(y + m, dd);
    assert Pow10(2) == 100 && Pow10(4) == 10000;
    Value(y + m + dd)
  }

  /** The month after (year, month); December rolls over into January of the next year. */
  function NextMonth(year: int, month: int): (r: (int, int))
    ensures 1 <= month <= 12 ==> 1 <= r.1 <= 12 && r.0 * 12 + r.1 == year * 12 + month + 1
  {
    if month == 12 then (year + 1, 1) else (year, month + 1)
  }

  /**
   * The first day of a month, spelled "{year:04}-{month:02}-01": the inclusive
   * lower bound of the window of (year, month).  For a four-digit year and a
   * month below 100 it is date-shaped and reads back as (year, month, 1).
   */
  function FirstOfMonth(year: int, month: int): (r: string)
    ensures 0 <= year < 10000 && 0 <= month < 100 ==>
      DateShaped(r) && DateYear(r) == year && DateMonth(r) == month && DateDay(r) == 1
  {
    FirstOfMonthFields(year, month);
    Dashed(Format(year, 4), Format(month, 2), "01")
  }

  /** The fields of "{year:04}-{month:02}-01" for a four-digit year and a month below 100. */
  lemma FirstOfMonthFields(year: int, month: int)
    ensures 0 <= year < 10000 && 0 <= month < 100 ==>
      var r := Dashed(Format(year, 4), Format(month, 2), "01");
      DateShaped(r) && DateYear(r) == year && DateMonth(r) == month && DateDay(r) == 1
  {
    if 0 <= year < 10000 && 0 <= month < 100 {
      FormatFixedWidth(year, 4);
      FormatFixedWidth(month, 2);
      DashedFields(Format(year, 4), Format(month, 2), "01");
      assert AllDigits("01") && Value("01") == 1 by {
        assert "01"[..1] == "0";
      }
    }
  }

  /**
   * The exclusive upper bound of the window of (year, month): the first of the
   * next month, a date exactly one month after the window's start.
   */
  function WindowEnd(year: int, month: int): (r: string)
    ensures 0 <= year <= 9999 && 1 <= month <= 12 && (month == 12 ==> year <= 9998) ==>
      && DateShaped(r) && DateDay(r) == 1 && 1 <= DateMonth(r) <= 12
      && DateYear(r) * 12 + DateMonth(r) == year * 12 + month + 1
  {
    var (ny, nm) := NextMonth(year, month);
    FirstOfMonth(ny, nm)
  }

  /**
   * `date >= start AND date < end`, compared as TEXT.  A window that holds a
   * date has its start strictly before its end.
   */
  predicate InWindow(date: string, year: int, month: int)
    ensures InWindow(date, year, month) ==> TextLess(FirstOfMonth(year, month), WindowEnd(year, month))
  {
    var start, end := FirstOfMonth(year, month), WindowEnd(year, month);
    TextLessTotal(date, start);
    TextLessTransitive(start, date, end);
    !TextLess(date, start) && TextLess(date, end)
  }

  lemma DashedFields(y: string, m: string, dd: string)
    requires |y| == 4 && |m| == 2 && |dd| == 2
    ensures var f := Dashed(y, m, dd);
      |f| == 10 && f[..4] == y && f[4] == '-' && f[5..7] == m && f[7] == '-' && f[8..] == dd
  {
  }

  /** Strings shaped Y-M-D with equal field widths compare field by field, year first. */
  lemma DashedFieldsOrder(y: string, m: string, dd: string, y': string, m': string, dd': string)
    requires |y| == |y'| && |m| == |m'|
    ensures TextLess(Dashed(y, m, dd), Dashed(y', m', dd'))
        <==> TextLess(y, y') || (y == y' && (TextLess(m, m') || (m == m' && TextLess(dd, dd'))))
  {
    assert Dashed(y, m, dd) == y + ("-" + (m + ("-" + dd)));
    assert Dashed(y', m', dd') == y' + ("-" + (m' + ("-" + dd')));
    TextLessIrreflexive("-");
    TextLessConcat(y, "-" + (m + ("-" + dd)), y', "-" + (m' + ("-" + dd')));
    TextLessConcat("-", m + ("-" + dd), "-", m' + ("-" + dd'));
    TextLessConcat(m, "-" + dd, m', "-" + dd');
    TextLessConcat("-", dd, "-", dd');
  }

  /** The same holds with the fields run together. */
  lemma JoinedFieldsOrder(y: string, m: string, dd: string, y': string, m': string, dd': string)
    requires |y| == |y'| && |m| == |m'|
    ensures TextLess(y + m + dd, y' + m' + dd')
        <==> TextLess(y, y') || (y == y' && (TextLess(m, m') || (m == m' && TextLess(dd, dd'))))
  {
    assert y + m + dd == y + (m + dd) && y' + m' + dd' == y' + (m' + dd');
    TextLessConcat(y, m + dd, y', m' + dd');
    TextLessConcat(m, dd, m', dd');
  }

  /** Between equal field widths, the dashes never decide a comparison. */
  lemma DashesDoNotDecide(y: string, m: string, dd: string, y': string, m': string, dd': string)
    requires |y| == |y'| && |m| == |m'|
    ensures TextLess(Dashed(y, m, dd), Dashed(y', m', dd')) <==> TextLess(y + m + dd, y' + m' + dd')
  {
    DashedFieldsOrder(y, m, dd, y', m', dd');
    JoinedFieldsOrder(y, m, dd, y', m', dd');
  }

  /** Date-shaped strings compare as TEXT exactly as the numbers YYYYMMDD compare. */
  lemma DateOrder(d: string, e: string)
    requires DateShaped(d) && DateShaped(e)
    ensures TextLess(d, e) <==> DateKey(d) < DateKey(e)
  {
    assert d == Dashed(d[..4], d[5..7], d[8..]);
    assert e == Dashed(e[..4], e[5..7], e[8..]);
    DashesDoNotDecide(d[..4], d[5..7], d[8..], e[..4], e[5..7], e[8..]);
    ValueAppend(d[..4], d[5..7]);
    ValueAppend(d[..4] + d[5..7], d[8..]);
    ValueAppend(e[..4], e[5..7]);
    ValueAppend(e[..4] + e[5..7], e[8..]);
    DigitsOrder(d[..4] + d[5..7] + d[8..], e[..4] + e[5..7] + e[8..]);
  }

  /** A well-formed date lies before the first of a month exactly when its (year, month) does. */
  lemma DateBeforeFirstOf(d: string, year: int, month: int)
    requires WellFormedDate(d) && 0 <= year < 10000 && 0 <= month < 100
    ensures TextLess(d, FirstOfMonth(year, month))
        <==> DateYear(d) < year || (DateYear(d) == year && DateMonth(d) < month)
  {
    DateOrder(d, FirstOfMonth(year, month));
    ValueBound(d[5..7]);
    assert Pow10(2) == 100;
  }

  /**
   * The comparisons of lib.rs:58-59 and lib.rs:103 work: a well-formed date lies in the TEXT
   * window of (year, month) exactly when its year and month are those.  Months
   * outside 1..12 are allowed here (neither command validates them) up to 98,
   * where the following month still has two digits.
   */
  lemma WindowSelectsMonth(d: string, year: int, month: int)
    requires WellFormedDate(d)
    requires 0 <= year <= 9999 && 0 <= month <= 98 && (month == 12 ==> year <= 9998)
    ensures InWindow(d, year, month) <==> InCalendarMonth(d, year, month)
  {
    var (ny, nm) := NextMonth(year, month);
    DateBeforeFirstOf(d, year, month);
    DateBeforeFirstOf(d, ny, nm);
  }

  /** The first of a validated month is a well-formed date that reads back as that month. */
  lemma FirstOfMonthParses(year: int, month: int)
    requires 0 <= year <= 9999 && 1 <= month <= 12
    ensures WellFormedDate(FirstOfMonth(year, month))
    ensures DateYear(FirstOfMonth(year, month)) == year
    ensures DateMonth(FirstOfMonth(year, month)) == month
    ensures DateDay(FirstOfMonth(year, month)) == 1
  {
  }

  /** For every validated month whose successor still has a four-digit year, start < end. */
  lemma WindowNonEmpty(year: int, month: int)
    requires 0 <= year <= 9999 && 1 <= month <= 12 && (month == 12 ==> year <= 9998)
    ensures TextLess(FirstOfMonth(year, month), WindowEnd(year, month))
  {
    FirstOfMonthParses(year, month);
    WindowSelectsMonth(FirstOfMonth(year, month), year, month);
  }

  /** An unvalidated month 0 or 13..98 gives a window that holds no well-formed date. */
  lemma UnvalidatedMonthSelectsNothing(d: string, year: int, month: int)
    requires WellFormedDate(d)
    requires 0 <= year <= 9999 && (month == 0 || 13 <= month <= 98)
    ensures !InWindow(d, year, month)
  {
    WindowSelectsMonth(d, year, month);
  }

  /**
   * December 9999 holds no date: its end bound "10000-01-01" has five year
   * digits and sorts before every date of year 9999.
   */
  lemma LastDecemberSelectsNothing(d: string)
    requires WellFormedDate(d)
    ensures !InWindow(d, 9999, 12)
  {
    if !TextLess(d, FirstOfMonth(9999, 12)) {
      DateBeforeFirstOf(d, 9999, 12);
      ValueBound(d[..4]);
      FormatFixedWidth(9999, 4);
      DigitsEqual(d[..4], Format(9999, 4));
      assert Format(9999, 4) == "9999";
      assert d[0] == '9';
      assert Decimal(10000) == "10000";
      assert WindowEnd(9999, 12)[0] == '1';
    }
  }
}
