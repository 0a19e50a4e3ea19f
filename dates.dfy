/** The proleptic Gregorian calendar on day numbers (days since 1970-01-01
    UTC), and the date helpers `toDate`, `fmt`, `fmtMD` and `daysBetween`.
    A `Date` at UTC midnight is represented by its day number, so the
    `/ 86400000` arithmetic of the helpers is exact integer arithmetic. */
module Dates {
  import opened Wrappers
  import opened Text
  import opened Seqs

  /** MS_PER_DAY. */
  const MsPerDay: int := 24 * 60 * 60 * 1000

  /** A UTC midnight, as the number of days since 1970-01-01. */
  type Day = int

  predicate IsLeap(y: int) {
    y % 4 == 0 && (y % 100 != 0 || y % 400 == 0)
  }

  function DaysInYear(y: int): int {
    if IsLeap(y) then 366 else 365
  }

  /** The number of leap years in [0, y), negative below 0. */
  function LeapsBefore(y: int): int {
    (y + 3) / 4 - (y + 99) / 100 + (y + 399) / 400
  }

  /** The day number of January 1 of year `y`. */
  function YearStart(y: int): Day {
    365 * (y - 1970) + LeapsBefore(y) - LeapsBefore(1970)
  }

  /** Going one year up, each ceiling (y + k - 1) / k of LeapsBefore grows
      by one exactly when k divides y. */
  lemma CeilStep4(y: int)
    ensures (y + 4) / 4 - (y + 3) / 4 == (if y % 4 == 0 then 1 else 0)
  {
  }

  lemma CeilStep100(y: int)
    ensures (y + 100) / 100 - (y + 99) / 100 == (if y % 100 == 0 then 1 else 0)
  {
  }

  lemma CeilStep400(y: int)
    ensures (y + 400) / 400 - (y + 399) / 400 == (if y % 400 == 0 then 1 else 0)
  {
  }

  /** Consecutive years start one year length apart. */
  lemma YearStartStep(y: int)
    ensures YearStart(y + 1) == YearStart(y) + DaysInYear(y)
  {
    LeapStep(y);
  }

  /** Going one year up adds a leap year exactly when the year is one. */
  lemma LeapStep(y: int)
    ensures LeapsBefore(y + 1) == LeapsBefore(y) + (if IsLeap(y) then 1 else 0)
  {
    CeilStep4(y);
    CeilStep100(y);
    CeilStep400(y);
    DivisorChain(y);
  }

  /** A multiple of 400 is one of 100, and a multiple of 100 one of 4. */
  lemma DivisorChain(y: int)
    ensures y % 400 == 0 ==> y % 100 == 0
    ensures y % 100 == 0 ==> y % 4 == 0
  {
    if y % 400 == 0 {
      var k := y / 400;
      assert y == 400 * k;
      var m := 4 * k;
      assert y == 100 * m;
    }
    if y % 100 == 0 {
      var k := y / 100;
      assert y == 100 * k;
      var m := 25 * k;
      assert y == 4 * m;
    }
  }

  /** Later years start later. */
  lemma {:induction false} YearStartMonotone(a: int, b: int)
    requires a < b
    ensures YearStart(a) < YearStart(b)
    decreases b - a
  {
    YearStartStep(b - 1);
    if a < b - 1 {
      YearStartMonotone(a, b - 1);
    }
  }

  function DaysInMonth(y: int, m: int): int
    requires 1 <= m <= 12
  {
    if m == 2 then (if IsLeap(y) then 29 else 28)
    else if m == 4 || m == 6 || m == 9 || m == 11 then 30
    else 31
  }

  /** Days of year `y` before the first of month `m`. */
  function DaysBeforeMonth(y: int, m: int): int
    requires 1 <= m <= 12
  {
    [0, 31, 59, 90, 120, 151, 181, 212, 243, 273, 304, 334][m - 1]
    + (if m > 2 && IsLeap(y) then 1 else 0)
  }

  lemma MonthStep(y: int, m: int)
    requires 1 <= m <= 12
    ensures m < 12 ==> DaysBeforeMonth(y, m + 1) == DaysBeforeMonth(y, m) + DaysInMonth(y, m)
    ensures m == 12 ==> DaysBeforeMonth(y, m) + DaysInMonth(y, m) == DaysInYear(y)
    ensures 0 <= DaysBeforeMonth(y, m) && 1 <= DaysInMonth(y, m)
  {
  }

  /** Later months start later in the year. */
  lemma {:induction false} MonthMonotone(y: int, a: int, b: int)
    requires 1 <= a < b <= 12
    ensures DaysBeforeMonth(y, a) + DaysInMonth(y, a) <= DaysBeforeMonth(y, b)
    decreases b - a
  {
    MonthStep(y, a);
    if a + 1 < b {
      MonthStep(y, a + 1);
      MonthMonotone(y, a + 1, b);
    }
  }

  /** A calendar date in the proleptic Gregorian calendar; month and day
      count from 1. */
  datatype Civil = Civil(year: int, month: int, day: int)

  predicate ValidCivil(c: Civil) {
    1 <= c.month <= 12 && 1 <= c.day <= DaysInMonth(c.year, c.month)
  }

  /** Date.UTC(y, m - 1, d) / MS_PER_DAY for a valid date. */
  function FromCivil(c: Civil): Day
    requires 1 <= c.month <= 12
  {
    YearStart(c.year) + DaysBeforeMonth(c.year, c.month) + c.day - 1
  }

  /** The year holding day `n`. */
  function YearOf(n: Day): (y: int)
    ensures YearStart(y) <= n < YearStart(y + 1)
  {
    if n >= 0 then YearUp(n, 1970) else YearDown(n, 1969)
  }

  function YearUp(n: Day, y: int): (r: int)
    requires YearStart(y) <= n
    ensures YearStart(r) <= n < YearStart(r + 1)
    decreases n - YearStart(y)
  {
    YearStartStep(y);
    if n < YearStart(y + 1) then y else YearUp(n, y + 1)
  }

  function YearDown(n: Day, y: int): (r: int)
    requires n < YearStart(y + 1)
    ensures YearStart(r) <= n < YearStart(r + 1)
    decreases YearStart(y + 1) - n
  {
    YearStartStep(y);
    if YearStart(y) <= n then y else YearDown(n, y - 1)
  }

  /** The month holding day `r` (counted from 0) of year `y`. */
  function MonthOf(y: int, r: int, m: int): (k: int)
    requires 0 <= r < DaysInYear(y) && 1 <= m <= 12 && DaysBeforeMonth(y, m) <= r
    ensures 1 <= k <= 12
    ensures DaysBeforeMonth(y, k) <= r < DaysBeforeMonth(y, k) + DaysInMonth(y, k)
    decreases 12 - m
  {
    MonthStep(y, m);
    if m == 12 || r < DaysBeforeMonth(y, m + 1) then m else MonthOf(y, r, m + 1)
  }

  /** getUTCFullYear, getUTCMonth() + 1 and getUTCDate of a day. */
  function ToCivil(n: Day): (c: Civil)
    ensures ValidCivil(c) && FromCivil(c) == n
  {
    var y := YearOf(n);
    YearStartStep(y);
    MonthStep(y, 1);
    var m := MonthOf(y, n - YearStart(y), 1);
    Civil(y, m, n - YearStart(y) - DaysBeforeMonth(y, m) + 1)
  }

  /** A valid date lies inside its own year. */
  lemma InsideYear(c: Civil)
    requires ValidCivil(c)
    ensures YearStart(c.year) <= FromCivil(c) < YearStart(c.year + 1)
  {
    YearStartStep(c.year);
    MonthStep(c.year, c.month);
    MonthStep(c.year, 12);
    if c.month < 12 {
      MonthMonotone(c.year, c.month, 12);
    }
  }

  /** Years do not overlap. */
  lemma YearUnique(a: int, b: int, n: Day)
    requires YearStart(a) <= n < YearStart(a + 1)
    requires YearStart(b) <= n < YearStart(b + 1)
    ensures a == b
  {
    if a + 1 < b {
      YearStartMonotone(a + 1, b);
    } else if b + 1 < a {
      YearStartMonotone(b + 1, a);
    }
  }

  /** Months of one year do not overlap. */
  lemma MonthUnique(y: int, a: int, b: int, r: int)
    requires 1 <= a <= 12 && 1 <= b <= 12
    requires DaysBeforeMonth(y, a) <= r < DaysBeforeMonth(y, a) + DaysInMonth(y, a)
    requires DaysBeforeMonth(y, b) <= r < DaysBeforeMonth(y, b) + DaysInMonth(y, b)
    ensures a == b
  {
    if a < b {
      MonthMonotone(y, a, b);
    } else if b < a {
      MonthMonotone(y, b, a);
    }
  }

  /** A valid date is the only one naming its day, so converting it to a
      day number and back gives it again. */
  lemma CivilRoundTrip(c: Civil)
    requires ValidCivil(c)
    ensures ToCivil(FromCivil(c)) == c
  {
    var n := FromCivil(c);
    var d := ToCivil(n);
    assert d.year == c.year by {
      InsideYear(c);
      InsideYear(d);
      YearUnique(c.year, d.year, n);
    }
    assert d.month == c.month by {
      MonthUnique(c.year, c.month, d.month, n - YearStart(c.year));
    }
  }

  /** getUTCDay: 0 is Sunday; 1970-01-01 was a Thursday. */
  function Weekday(n: Day): (w: int)
    ensures 0 <= w < 7
  {
    (n + 4) % 7
  }

  /** The weekday repeats every seven days and advances by one each day. */
  lemma WeekdayNext(n: Day)
    ensures Weekday(n + 1) == (Weekday(n) + 1) % 7
    ensures Weekday(n + 7) == Weekday(n)
  {
  }

  /** What `toDate` is given: null or undefined, a cell's text, or a Date
      object whose time value is None when it is an invalid Date (NaN). */
  datatype DateInput = Null | Text(s: string) | Instant(ms: Option<int>)

  /** Reads the date-only forms of the ECMAScript date-time string format
      (`YYYY`, `YYYY-MM`, `YYYY-MM-DD`), which denote UTC midnight of the
      first day they name; anything else, including an out-of-range month
      or day, is an invalid Date. */
  function ParseIsoDate(s: string): (r: Option<Day>)
    ensures r.Some? ==> |s| == 4 || |s| == 7 || |s| == 10
  {
    if |s| == 4 && AllDigits(s) then
      Some(FromCivil(Civil(DigitsValue(s), 1, 1)))
    else if |s| == 7 && s[4] == '-' && AllDigits(s[..4]) && AllDigits(s[5..]) then
      var c := Civil(DigitsValue(s[..4]), DigitsValue(s[5..]), 1);
      if ValidCivil(c) then Some(FromCivil(c)) else None
    else if |s| == 10 && s[4] == '-' && s[7] == '-' && AllDigits(s[..4])
      && AllDigits(s[5..7]) && AllDigits(s[8..]) then
      var c := Civil(DigitsValue(s[..4]), DigitsValue(s[5..7]), DigitsValue(s[8..]));
      if ValidCivil(c) then Some(FromCivil(c)) else None
    else None
  }

  /** `toDate`: the UTC midnight of the day the input denotes, or None. */
  function ToDate(x: DateInput): (r: Option<Day>)
    ensures x == Null || x == Text("") || x == Instant(None) ==> r == None
    ensures x.Instant? && x.ms.Some? ==> r.Some? && r.value * MsPerDay <= x.ms.value < (r.value + 1) * MsPerDay
  {
    match x
    case Null => None
    case Text(s) =>
      if s == "" then None else ParseIsoDate(ReplaceChar(Trim(s), '/', '-'))
    case Instant(ms) =>
      if ms.None? then None else Some(ms.value / MsPerDay)
  }

  /** A Date already at UTC midnight is returned unchanged. */
  lemma ToDateMidnight(d: Day)
    ensures ToDate(Instant(Some(d * MsPerDay))) == Some(d)
  {
    var r := ToDate(Instant(Some(d * MsPerDay)));
    assert r.value * MsPerDay <= d * MsPerDay < (r.value + 1) * MsPerDay;
  }

  lemma ReplaceTwice(s: string, from: char, to: char)
    ensures ReplaceChar(ReplaceChar(s, from, to), from, to) == ReplaceChar(s, from, to)
  {
  }

  /** Replacing one non-space character by another commutes with trimming. */
  lemma {:induction false} TrimStartReplace(s: string, from: char, to: char)
    requires !IsSpace(from) && !IsSpace(to)
    ensures TrimStart(ReplaceChar(s, from, to)) == ReplaceChar(TrimStart(s), from, to)
  {
    if s != [] {
      var r := ReplaceChar(s, from, to);
      assert r[0] == if s[0] == from then to else s[0];
      if IsSpace(s[0]) {
        assert r[0] == s[0];
        assert r[1..] == ReplaceChar(s[1..], from, to);
        TrimStartReplace(s[1..], from, to);
      } else {
        assert !IsSpace(r[0]);
      }
    }
  }

  lemma {:induction false} TrimEndReplace(s: string, from: char, to: char)
    requires !IsSpace(from) && !IsSpace(to)
    ensures TrimEnd(ReplaceChar(s, from, to)) == ReplaceChar(TrimEnd(s), from, to)
  {
    if s != [] {
      var r := ReplaceChar(s, from, to);
      var n := |s| - 1;
      assert r[n] == if s[n] == from then to else s[n];
      if IsSpace(s[n]) {
        assert r[n] == s[n];
        assert r[..n] == ReplaceChar(s[..n], from, to);
        TrimEndReplace(s[..n], from, to);
      } else {
        assert !IsSpace(r[n]);
      }
    }
  }

  /** `YYYY/MM/DD` reads as `YYYY-MM-DD`: a text and its copy with every
      slash turned into a dash denote the same day. */
  lemma SlashesAsDashes(s: string)
    ensures ToDate(Text(s)) == ToDate(Text(ReplaceChar(s, '/', '-')))
  {
    var t := ReplaceChar(s, '/', '-');
    TrimStartReplace(s, '/', '-');
    TrimEndReplace(TrimStart(s), '/', '-');
    assert Trim(t) == ReplaceChar(Trim(s), '/', '-');
    ReplaceTwice(Trim(s), '/', '-');
    assert s == "" <==> t == "";
  }

  /** `fmt`: `YYYY-MM-DD` in UTC, month and day padded to two digits, the
      year written by String() without padding. */
  function Fmt(n: Day): string
  {
    var c := ToCivil(n);
    IntToString(c.year) + "-" + Pad2(c.month) + "-" + Pad2(c.day)
  }

  /** A four-digit number is written with four digits. */
  lemma FourDigits(y: int)
    requires 1000 <= y <= 9999
    ensures |NatToString(y)| == 4
  {
    assert NatToString(y) == NatToString(y / 10) + [DigitChar(y % 10)];
    assert NatToString(y / 10) == NatToString(y / 100) + [DigitChar(y / 10 % 10)];
    assert NatToString(y / 100) == NatToString(y / 1000) + [DigitChar(y / 100 % 10)];
  }

  /** A text that is already trimmed and has no slash is read as it is. */
  lemma ToDatePlain(s: string)
    requires s != [] && IsTrimmed(s) && '/' !in s
    ensures ToDate(Text(s)) == ParseIsoDate(s)
  {
    TrimTrimmed(s);
    ReplaceAbsent(s, '/', '-');
  }

  /** Four digits, a dash, two digits, a dash and two digits read as the
      date they spell when that date is valid. */
  lemma ReadIsoText(ys: string, ms: string, ds: string)
    requires |ys| == 4 && |ms| == 2 && |ds| == 2
    requires AllDigits(ys) && AllDigits(ms) && AllDigits(ds)
    requires ValidCivil(Civil(DigitsValue(ys), DigitsValue(ms), DigitsValue(ds)))
    ensures var s := ys + "-" + ms + "-" + ds;
      |s| == 10 && s[4] == '-' && s[7] == '-' && IsTrimmed(s) && '/' !in s
      && ParseIsoDate(s) == Some(FromCivil(Civil(DigitsValue(ys), DigitsValue(ms), DigitsValue(ds))))
  {
    var s := ys + "-" + ms + "-" + ds;
    assert s[..4] == ys && s[5..7] == ms && s[8..] == ds;
    assert IsTrimmed(s) by {
      assert s[0] == ys[0] && s[9] == ds[1];
    }
    assert '/' !in s by {
      NoSlash(ys);
      NoSlash(ms);
      NoSlash(ds);
    }
  }

  lemma NoSlash(s: string)
    requires AllDigits(s)
    ensures '/' !in s
  {
    forall i | 0 <= i < |s|
      ensures s[i] != '/'
    {
      assert IsDigit(s[i]);
    }
  }

  /** For a four-digit year `fmt` gives ten characters, dashes at 4 and 7,
      which `toDate` reads back as the same day. */
  lemma FmtRoundTrip(n: Day)
    requires 1000 <= ToCivil(n).year <= 9999
    ensures |Fmt(n)| == 10 && Fmt(n)[4] == '-' && Fmt(n)[7] == '-'
    ensures ToDate(Text(Fmt(n))) == Some(n)
  {
    var c := ToCivil(n);
    var ys, ms, ds := NatToString(c.year), Pad2(c.month), Pad2(c.day);
    CivilDigits(c);
    assert Civil(DigitsValue(ys), DigitsValue(ms), DigitsValue(ds)) == c;
    ReadIsoText(ys, ms, ds);
    assert Fmt(n) == ys + "-" + ms + "-" + ds;
    ToDatePlain(Fmt(n));
  }

  /** The fields of a valid four-digit-year date are written with four,
      two and two digits that read back as the fields. */
  lemma CivilDigits(c: Civil)
    requires ValidCivil(c) && 1000 <= c.year <= 9999
    ensures |NatToString(c.year)| == 4 && |Pad2(c.month)| == 2 && |Pad2(c.day)| == 2
    ensures DigitsValue(NatToString(c.year)) == c.year
    ensures DigitsValue(Pad2(c.month)) == c.month && DigitsValue(Pad2(c.day)) == c.day
  {
    assert c.month <= 12 && c.day <= 31;
    FourDigits(c.year);
    NatToStringValue(c.year);
    Pad2Value(c.month);
    Pad2Value(c.day);
  }

  /** `fmtMD`: `M/D` in UTC without padding. */
  function FmtMD(n: Day): string
  {
    var c := ToCivil(n);
    NatToString(c.month) + "/" + NatToString(c.day)
  }

  /** `fmtMD` splits at its one slash into the month and the day, each
      written without a leading zero. */
  lemma FmtMDParts(n: Day)
    ensures var p := Split(FmtMD(n), '/');
      |p| == 2 && AllDigits(p[0]) && AllDigits(p[1])
      && DigitsValue(p[0]) == ToCivil(n).month && DigitsValue(p[1]) == ToCivil(n).day
      && (|p[0]| > 1 ==> p[0][0] != '0') && (|p[1]| > 1 ==> p[1][0] != '0')
  {
    var c := ToCivil(n);
    var a, b := NatToString(c.month), NatToString(c.day);
    assert '/' !in a && '/' !in b by {
      assert forall i :: 0 <= i < |a| ==> IsDigit(a[i]);
      assert forall i :: 0 <= i < |b| ==> IsDigit(b[i]);
    }
    assert Join([a, b], '/') == FmtMD(n);
    SplitJoin([a, b], '/');
    NatToStringValue(c.month);
    NatToStringValue(c.day);
  }

  /** `daysBetween`: the number of days from `a` to `b`, both counted. */
  function DaysBetween(a: Day, b: Day): int
  {
    b - a + 1
  }

  /** The days from `a` to `b`, both included. */
  function DayRange(a: Day, b: Day): set<Day>
    decreases b - a
  {
    if b < a then {} else DayRange(a, b - 1) + {b}
  }

  /** The range holds exactly the days between its ends, and `daysBetween`
      counts them: the count is inclusive. */
  lemma {:induction false} DaysBetweenCounts(a: Day, b: Day)
    requires a <= b + 1
    ensures forall d :: d in DayRange(a, b) <==> a <= d <= b
    ensures DaysBetween(a, b) == |DayRange(a, b)|
    decreases b - a
  {
    if a <= b {
      DaysBetweenCounts(a, b - 1);
    }
  }
}
