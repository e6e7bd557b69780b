/**
 The save-path pattern of the plugin: `{year}` and `{month}` are replaced by
 the current year and month as PHP's `date('Y')` and `date('m')` print them,
 in that order, and every other character of the pattern is kept. The clock is
 not read here; the date is a parameter.
 */
module SavePath {
  import opened Text

  type Month = m: nat | 1 <= m <= 12 witness 1

  /** The part of the current date the save path uses. */
  datatype Date = Date(year: nat, month: Month)

  const YearPlaceholder: String := "{year}"
  const MonthPlaceholder: String := "{month}"

  // ---------------------------------------------------------------------
  // Decimal text of the date fields
  // ---------------------------------------------------------------------

  predicate IsDigit(c: char) {
    '0' <= c <= '9'
  }

  predicate AllDigits(s: String) {
    forall i :: 0 <= i < |s| ==> IsDigit(s[i])
  }

  function DigitChar(d: nat): (c: char)
    requires d < 10
    ensures IsDigit(c) && (c as int) - ('0' as int) == d
  {
    (('0' as int) + d) as char
  }

  /** The numeric value of a string of decimal digits. */
  function DecimalValue(s: String): nat
    requires AllDigits(s)
    decreases |s|
  {
    if |s| == 0 then 0
    else DecimalValue(s[..|s| - 1]) * 10 + ((s[|s| - 1] as int) - ('0' as int))
  }

  /** Decimal digits of `n` without leading zeros ("0" for zero). */
  function Decimal(n: nat): (r: String)
    ensures 1 <= |r| && AllDigits(r)
    ensures DecimalValue(r) == n
    ensures |r| == 1 || r[0] != '0'
    decreases n
  {
    if n < 10 then [DigitChar(n)]
    else
      var front := Decimal(n / 10);
      var r := front + [DigitChar(n % 10)];
      assert r[..|r| - 1] == front;
      assert r[0] == front[0];
      assert |front| == 1 ==> front == [DigitChar(n / 10)] && n / 10 != 0;
      r
  }

  /** A number of at least 10^k has more than k digits. */
  lemma {:induction false} DecimalLengthAbove(n: nat, k: nat)
    requires Pow10(k) <= n
    ensures k < |Decimal(n)|
    decreases k
  {
    if k > 0 {
      assert 10 <= n;
      assert Pow10(k - 1) <= n / 10;
      DecimalLengthAbove(n / 10, k - 1);
    }
  }

  function Pow10(k: nat): (p: nat)
    ensures p >= 1
  {
    if k == 0 then 1 else 10 * Pow10(k - 1)
  }

  lemma {:induction false} DecimalLength(n: nat, k: nat)
    requires 1 <= k && n < Pow10(k)
    ensures |Decimal(n)| <= k
    decreases k
  {
    if n >= 10 {
      DecimalLength(n / 10, k - 1);
    }
  }

  /** Zeros in front of a digit string do not change its value. */
  lemma {:induction false} LeadingZeros(z: String, s: String)
    requires AllAre(z, '0') && AllDigits(s)
    ensures AllDigits(z + s) && DecimalValue(z + s) == DecimalValue(s)
    decreases |s|
  {
    if |s| == 0 {
      assert z + s == z;
      ZerosValue(z);
    } else {
      var s' := s[..|s| - 1];
      assert (z + s)[..|z + s| - 1] == z + s';
      LeadingZeros(z, s');
    }
  }

  lemma {:induction false} ZerosValue(z: String)
    requires AllAre(z, '0')
    ensures AllDigits(z) && DecimalValue(z) == 0
    decreases |z|
  {
    if |z| > 0 {
      ZerosValue(z[..|z| - 1]);
    }
  }

  /** `s` padded on the left with '0' to at least `width` characters. */
  function ZeroPad(s: String, width: nat): (r: String)
    ensures |r| == (if |s| < width then width else |s|)
    ensures EndsWith(r, s) && AllAre(r[..|r| - |s|], '0')
  {
    if |s| < width then
      var r := Repeat('0', width - |s|) + s;
      assert r[..|r| - |s|] == Repeat('0', width - |s|);
      r
    else s
  }

  /** Padding a digit string with zeros keeps its value. */
  lemma ZeroPadValue(d: String, width: nat)
    requires AllDigits(d)
    ensures AllDigits(ZeroPad(d, width))
    ensures DecimalValue(ZeroPad(d, width)) == DecimalValue(d)
  {
    var r := ZeroPad(d, width);
    assert r == r[..|r| - |d|] + d;
    LeadingZeros(r[..|r| - |d|], d);
  }

  /** `date('Y')`: the year with at least four digits, zero-padded. */
  function YearText(year: nat): (r: String)
    ensures AllDigits(r) && 4 <= |r|
    ensures DecimalValue(r) == year
    ensures year < 10000 ==> |r| == 4
    ensures 10000 <= year ==> r == Decimal(year)
  {
    ZeroPadValue(Decimal(year), 4);
    assert Pow10(4) == 10000;
    if year < 10000 then
      DecimalLength(year, 4);
      ZeroPad(Decimal(year), 4)
    else
      DecimalLengthAbove(year, 4);
      ZeroPad(Decimal(year), 4)
  }

  /** `date('m')`: the month as two digits with a leading zero. */
  function MonthText(month: Month): (r: String)
    ensures AllDigits(r) && |r| == 2
    ensures DecimalValue(r) == month
  {
    ZeroPadValue(Decimal(month), 2);
    assert Pow10(2) == 100;
    DecimalLength(month, 2);
    ZeroPad(Decimal(month), 2)
  }

  /** Different years print differently, so the prefix tells the year. */
  lemma YearTextInjective(y1: nat, y2: nat)
    requires YearText(y1) == YearText(y2)
    ensures y1 == y2
  {
  }

  // ---------------------------------------------------------------------
  // formatSavePath
  // ---------------------------------------------------------------------

  lemma DigitsAvoidPlaceholders(d: String)
    requires AllDigits(d)
    ensures Disjoint(YearPlaceholder, d) && Disjoint(MonthPlaceholder, d)
  {
  }

  /** `str_replace(['{year}', '{month}'], [Y, m], pattern)`: PHP applies the
      pairs one after the other over the whole subject. No placeholder
      survives, not even one spelled across a replaced spot. */
  function FormatSavePath(pattern: String, today: Date): (path: String)
    ensures !Contains(path, YearPlaceholder)
    ensures !Contains(path, MonthPlaceholder)
  {
    var y := YearText(today.year);
    var m := MonthText(today.month);
    var withYear := ReplaceAll(pattern, YearPlaceholder, y);
    DigitsAvoidPlaceholders(y);
    DigitsAvoidPlaceholders(m);
    ReplaceAllRemoves(pattern, YearPlaceholder, y);
    ReplaceAllCreatesNothing(withYear, MonthPlaceholder, m, YearPlaceholder);
    ReplaceAllRemoves(withYear, MonthPlaceholder, m);
    ReplaceAll(withYear, MonthPlaceholder, MonthText(today.month))
  }

  // The lemmas below receive the placeholders as parameters pinned by
  // `requires` instead of naming the constants, so that the solver does not
  // unfold ReplaceAll over the literal text.

  /** The first pass leaves the text around a `{year}` alone and puts the
      year text in its place. */
  lemma YearPassSplit(a: String, b: String, n: String, y: String)
    requires n == YearPlaceholder
    ensures ReplaceAll(a + n + b, n, y) == ReplaceAll(a, n, y) + y + ReplaceAll(b, n, y)
  {
    assert n[0] == '{' && '{' !in n[1..];
    ReplaceAllSplit(a, b, n, y);
  }

  /** The second pass goes straight over digits: an occurrence of
      `{month}` can neither start in nor run through them. */
  lemma MonthPassOverDigits(a: String, y: String, b: String, n: String, m: String)
    requires n == MonthPlaceholder && AllDigits(y) && |y| > 0
    ensures ReplaceAll(a + y + b, n, m) == ReplaceAll(a, n, m) + y + ReplaceAll(b, n, m)
  {
    assert IsDigit(y[0]);
    assert y[0] !in n[1..];
    assert '{' !in y;
    assert a + y + b == a + (y + b);
    ReplaceAllConcat(a, y + b, n, m);
    ReplaceAllSkip(y, b, n, m);
  }

  /** A `{month}` at the front passes through the first pass whole. */
  lemma MonthSurvivesYearPass(b: String, yn: String, mn: String, y: String)
    requires yn == YearPlaceholder && mn == MonthPlaceholder
    ensures ReplaceAll(mn + b, yn, y) == mn + ReplaceAll(b, yn, y)
  {
    var s := mn + b;
    assert s[..|yn|][1] == 'm' != yn[1];
    ReplaceAllMissStep(s, yn, y);
    assert s[1..] == mn[1..] + b;
    assert yn[0] !in mn[1..];
    ReplaceAllSkip(mn[1..], b, yn, y);
    ConcatAssoc([mn[0]], mn[1..], ReplaceAll(b, yn, y));
    assert mn == [mn[0]] + mn[1..];
  }

  /** The first pass keeps a `{month}` whole. */
  lemma YearPassKeepsMonth(a: String, b: String, yn: String, mn: String, y: String)
    requires yn == YearPlaceholder && mn == MonthPlaceholder
    ensures ReplaceAll(a + mn + b, yn, y) == ReplaceAll(a, yn, y) + mn + ReplaceAll(b, yn, y)
  {
    assert a + mn + b == a + (mn + b);
    assert (mn + b)[0] == '{' && '{' !in yn[1..];
    ReplaceAllConcat(a, mn + b, yn, y);
    MonthSurvivesYearPass(b, yn, mn, y);
  }

  /** The second pass puts the month text in place of a `{month}` and
      leaves the text around it to be formatted on its own. */
  lemma MonthPassSplit(a: String, b: String, n: String, m: String)
    requires n == MonthPlaceholder
    ensures ReplaceAll(a + n + b, n, m) == ReplaceAll(a, n, m) + m + ReplaceAll(b, n, m)
  {
    assert n[0] == '{' && '{' !in n[1..];
    ReplaceAllSplit(a, b, n, m);
  }

  /** Every `{year}` of any pattern becomes the year text, and the text on
      either side is formatted as if it stood alone. */
  lemma FormatSplitsAtYear(a: String, b: String, today: Date)
    ensures FormatSavePath(a + YearPlaceholder + b, today)
         == FormatSavePath(a, today) + YearText(today.year) + FormatSavePath(b, today)
  {
    var y := YearText(today.year);
    var m := MonthText(today.month);
    YearPassSplit(a, b, YearPlaceholder, y);
    MonthPassOverDigits(ReplaceAll(a, YearPlaceholder, y), y, ReplaceAll(b, YearPlaceholder, y), MonthPlaceholder, m);
  }

  /** Every `{month}` of any pattern becomes the two-digit month, and the
      text on either side is formatted as if it stood alone. */
  lemma FormatSplitsAtMonth(a: String, b: String, today: Date)
    ensures FormatSavePath(a + MonthPlaceholder + b, today)
         == FormatSavePath(a, today) + MonthText(today.month) + FormatSavePath(b, today)
  {
    var y := YearText(today.year);
    var m := MonthText(today.month);
    YearPassKeepsMonth(a, b, YearPlaceholder, MonthPlaceholder, y);
    MonthPassSplit(ReplaceAll(a, YearPlaceholder, y), ReplaceAll(b, YearPlaceholder, y), MonthPlaceholder, m);
  }

  /** A pattern comes back unchanged exactly when it holds no placeholder. */
  lemma FormatIdentity(pattern: String, today: Date)
    ensures FormatSavePath(pattern, today) == pattern
        <==> !Contains(pattern, YearPlaceholder) && !Contains(pattern, MonthPlaceholder)
  {
  }

  /** The pattern the configuration form proposes, `{year}/{month}/`. */
  const DefaultSavePath: String := YearPlaceholder + "/" + MonthPlaceholder + "/"

  lemma DefaultPatternTail(n: String, tail: String, y: String)
    requires n == YearPlaceholder && tail == "/" + MonthPlaceholder + "/"
    ensures ReplaceAll(tail, n, y) == tail
  {
    assert 'y' in n && 'y' !in tail;
    if Contains(tail, n) {
      ContainsChars(tail, n, 'y');
    }
  }

  lemma DefaultPatternYearStep(n: String, tail: String, y: String)
    requires n == YearPlaceholder && tail == "/" + MonthPlaceholder + "/"
    ensures ReplaceAll(n + tail, n, y) == y + tail
  {
    ReplaceAllLead(n, tail, y);
    DefaultPatternTail(n, tail, y);
  }

  lemma DefaultPatternMonthStep(y: String, n: String, m: String)
    requires AllDigits(y) && n == MonthPlaceholder
    ensures ReplaceAll(y + ("/" + n + "/"), n, m) == y + "/" + m + "/"
  {
    var front := y + "/";
    assert y + ("/" + n + "/") == front + (n + "/");
    assert '{' !in front;
    ReplaceAllSkip(front, n + "/", n, m);
    ReplaceAllLead(n, "/", m);
  }

  /** The default pattern `{year}/{month}/` gives "YYYY/MM/". */
  lemma FormatDefaultPattern(today: Date)
    ensures FormatSavePath(DefaultSavePath, today)
         == YearText(today.year) + "/" + MonthText(today.month) + "/"
  {
    DefaultPatternSteps(DefaultSavePath, YearPlaceholder + "/" + MonthPlaceholder + "/", today);
  }

  /** The two passes over the default pattern, one placeholder each. The
      pattern is a parameter pinned by `requires`, so that the solver does
      not unfold FormatSavePath over the literal pattern. */
  lemma DefaultPatternSteps(pattern: String, spelled: String, today: Date)
    requires pattern == spelled && spelled == YearPlaceholder + "/" + MonthPlaceholder + "/"
    ensures FormatSavePath(pattern, today)
         == YearText(today.year) + "/" + MonthText(today.month) + "/"
  {
    var tail := "/" + MonthPlaceholder + "/";
    assert pattern == YearPlaceholder + tail;
    DefaultPatternYearStep(YearPlaceholder, tail, YearText(today.year));
    DefaultPatternMonthStep(YearText(today.year), MonthPlaceholder, MonthText(today.month));
  }

  /** A placeholder the plugin does not know, such as `{day}`, is kept. */
  lemma FormatUnknownPlaceholder(today: Date)
    ensures FormatSavePath("{day}/x/", today) == "{day}/x/"
  {
    var p: String := "{day}/x/";
    assert 'r' in YearPlaceholder && 'r' !in p;
    assert 'm' in MonthPlaceholder && 'm' !in p;
    if Contains(p, YearPlaceholder) {
      ContainsChars(p, YearPlaceholder, 'r');
    }
    if Contains(p, MonthPlaceholder) {
      ContainsChars(p, MonthPlaceholder, 'm');
    }
    FormatIdentity(p, today);
  }

  // ---------------------------------------------------------------------
  // March 2025
  // ---------------------------------------------------------------------

  lemma Year2025()
    ensures YearText(2025) == "2025"
  {
    assert Decimal(2) == "2";
    assert Decimal(20) == Decimal(2) + "0" == "20";
    assert Decimal(202) == Decimal(20) + "2" == "202";
    assert Decimal(2025) == Decimal(202) + "5" == "2025";
  }

  lemma March03()
    ensures MonthText(3) == "03"
  {
    assert Decimal(3) == "3";
  }

  /** The default pattern for a date whose year and month texts are known. */
  lemma DefaultPatternWith(today: Date, y: String, m: String)
    requires YearText(today.year) == y && MonthText(today.month) == m
    ensures FormatSavePath(DefaultSavePath, today) == y + "/" + m + "/"
  {
    FormatDefaultPattern(today);
  }

  /** The default pattern in March 2025 gives "2025/03/". The pattern and
      date are parameters pinned by `requires` so that the solver does not
      unfold FormatSavePath over the literal pattern. */
  lemma March2025Path(pattern: String, today: Date)
    requires pattern == DefaultSavePath && today == Date(2025, 3)
    ensures FormatSavePath(pattern, today) == "2025/03/"
  {
    Year2025();
    March03();
    DefaultPatternWith(today, "2025", "03");
  }
}
