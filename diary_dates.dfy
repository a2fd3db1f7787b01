/**
 * The diary's date labels: `formatDate` renders 'YYYY.MM.DD HH:MM' and
 * `getRelativeDate` buckets the days elapsed since an entry was written.
 * The local-time `Date` getters and the clock are not modelled: a caller passes
 * the fields the getters would return and the millisecond difference `now - date`.
 */
module DiaryDates {
  import opened Options
  import opened JsStrings

  /** What `getFullYear`, `getMonth` (zero-based), `getDate`, `getHours` and `getMinutes` return. */
  datatype DateFields = DateFields(year: int, month: int, day: int, hours: int, minutes: int)

  /** The ranges those getters keep to. */
  predicate InRange(f: DateFields) {
    0 <= f.month < 12 && 1 <= f.day <= 31 && 0 <= f.hours < 24 && 0 <= f.minutes < 60
  }

  const MS_PER_DAY: int := 1000 * 60 * 60 * 24

  /** `String(n).padStart(2, '0')`. */
  function TwoDigits(n: int): (r: string)
    ensures |r| >= 2
  {
    PadStart(IntToString(n), 2, '0')
  }

  /** `formatDate`: year as is, then the 1-based month, the day, the hours and the minutes padded to two digits. */
  function FormatDate(f: DateFields): string {
    DateHalf(f) + " " + TimeHalf(f)
  }

  /** `${year}.${month}.${day}`, the half before the space. */
  function DateHalf(f: DateFields): string {
    IntToString(f.year) + "." + TwoDigits(f.month + 1) + "." + TwoDigits(f.day)
  }

  /** `${hours}:${minutes}`, the half after the space. */
  function TimeHalf(f: DateFields): string {
    TwoDigits(f.hours) + ":" + TwoDigits(f.minutes)
  }

  /** `Math.floor(diffMs / 86400000)`: the whole days in `diffMs`, rounded toward minus infinity. */
  function DaysElapsed(diffMs: int): (d: int)
    ensures d * MS_PER_DAY <= diffMs < (d + 1) * MS_PER_DAY
  {
    diffMs / MS_PER_DAY
  }

  /** `getRelativeDate`: today, yesterday, "n days ago" below a week, else the date half of `formatDate`. */
  function RelativeDate(diffMs: int, f: DateFields): (r: string)
    ensures DaysElapsed(diffMs) >= 7 ==> r == DateHalf(f)
  {
    var d := DaysElapsed(diffMs);
    if d == 0 then "오늘"
    else if d == 1 then "어제"
    else if d < 7 then IntToString(d) + "일 전"
    else FormatDateHalves(f); Split(FormatDate(f), ' ')[0]
  }

  // ----- properties of TwoDigits and FormatDate -----

  lemma TwoDigitsRoundTrip(n: int)
    ensures ParseInt(TwoDigits(n)) == Some(n)
  {
    IntToStringRoundTrip(n);
    if 0 <= n < 10 {
      NatToStringValue(n);
      var p := TwoDigits(n);
      assert p == "0" + NatToString(n);
      assert p[..1] == "0" && p[1..] == NatToString(n);
      assert DigitsValue(p) == 10 * DigitsValue(p[..1]) + DigitsValue(NatToString(n));
    }
  }

  /** Values of the getters' ranges come out as exactly two decimal digits. */
  lemma TwoDigitsWidth(n: int)
    requires 0 <= n < 100
    ensures |TwoDigits(n)| == 2 && AllDigits(TwoDigits(n))
  {
    if n >= 10 {
      var r := NatToString(n);
      assert r == NatToString(n / 10) + [DigitChar(n % 10)];
      assert NatToString(n / 10) == [DigitChar(n / 10)];
    }
  }

  /** A field rendering holds none of the separators '.', ' ' and ':'. */
  lemma NoSeparators(s: string)
    requires forall k :: 0 <= k < |s| ==> IsDigit(s[k]) || s[k] == '-'
    ensures '.' !in s && ' ' !in s && ':' !in s
  {
  }

  lemma TwoDigitsNoSeparators(n: int)
    ensures '.' !in TwoDigits(n) && ' ' !in TwoDigits(n) && ':' !in TwoDigits(n)
  {
    var p := TwoDigits(n);
    var s := IntToString(n);
    IntToStringChars(n);
    PadStartShape(s, 2, '0');
    forall k | 0 <= k < |p| ensures IsDigit(p[k]) || p[k] == '-' {
      if k >= |p| - |s| { assert p[k] == s[k - (|p| - |s|)]; }
    }
    NoSeparators(p);
  }

  /** Splitting `a + sep1 + b + sep1 + c + sep2 + d + sep3 + e` at each separator in turn. */
  lemma SplitPieces(a: string, b: string, c: string, d: string, e: string)
    requires '.' !in a && '.' !in b && '.' !in c && ' ' !in a && ' ' !in b && ' ' !in c
    requires ' ' !in d && ' ' !in e && ':' !in d && ':' !in e
    ensures Split(a + "." + b + "." + c, '.') == [a, b, c]
    ensures Split(d + ":" + e, ':') == [d, e]
    ensures Split((a + "." + b + "." + c) + " " + (d + ":" + e), ' ') == [a + "." + b + "." + c, d + ":" + e]
  {
    assert a + "." + b + "." + c == a + ['.'] + (b + ['.'] + c);
    SplitAtFirstSeparator(a, b + "." + c, '.');
    SplitAtFirstSeparator(b, c, '.');
    SplitWithoutSeparator(c, '.');
    SplitAtFirstSeparator(d, e, ':');
    SplitWithoutSeparator(e, ':');
    var left, right := a + "." + b + "." + c, d + ":" + e;
    assert ' ' !in left;
    assert ' ' !in right;
    SplitAtFirstSeparator(left, right, ' ');
    SplitWithoutSeparator(right, ' ');
  }

  /** `formatDate(x).split(' ')` yields the date half and the time half, and each splits into its fields. */
  lemma FormatDateHalves(f: DateFields)
    ensures Split(FormatDate(f), ' ') == [DateHalf(f), TimeHalf(f)]
    ensures Split(DateHalf(f), '.') == [IntToString(f.year), TwoDigits(f.month + 1), TwoDigits(f.day)]
    ensures Split(TimeHalf(f), ':') == [TwoDigits(f.hours), TwoDigits(f.minutes)]
  {
    IntToStringChars(f.year);
    NoSeparators(IntToString(f.year));
    TwoDigitsNoSeparators(f.month + 1);
    TwoDigitsNoSeparators(f.day);
    TwoDigitsNoSeparators(f.hours);
    TwoDigitsNoSeparators(f.minutes);
    SplitPieces(IntToString(f.year), TwoDigits(f.month + 1), TwoDigits(f.day), TwoDigits(f.hours), TwoDigits(f.minutes));
  }

  /** Reads a 'YYYY.MM.DD HH:MM' rendering back into getter values (month back to zero-based). */
  function ParseFormattedDate(s: string): Option<DateFields> {
    var halves := Split(s, ' ');
    if |halves| != 2 then None
    else
      var ymd := Split(halves[0], '.');
      var hm := Split(halves[1], ':');
      if |ymd| != 3 || |hm| != 2 then None
      else
        var year, month, day := ParseInt(ymd[0]), ParseInt(ymd[1]), ParseInt(ymd[2]);
        var hours, minutes := ParseInt(hm[0]), ParseInt(hm[1]);
        if year.None? || month.None? || day.None? || hours.None? || minutes.None? then None
        else Some(DateFields(year.value, month.value - 1, day.value, hours.value, minutes.value))
  }

  /** No two getter readings render alike: `formatDate` loses nothing. */
  lemma FormatDateRoundTrip(f: DateFields)
    ensures ParseFormattedDate(FormatDate(f)) == Some(f)
  {
    FormatDateHalves(f);
    IntToStringRoundTrip(f.year);
    TwoDigitsRoundTrip(f.month + 1);
    TwoDigitsRoundTrip(f.day);
    TwoDigitsRoundTrip(f.hours);
    TwoDigitsRoundTrip(f.minutes);
  }

  /** In the getters' ranges every field after the year is two characters wide, so the rendering is the year and 12 more. */
  lemma FormatDateLayout(f: DateFields)
    requires InRange(f)
    ensures |TwoDigits(f.month + 1)| == 2 && |TwoDigits(f.day)| == 2
    ensures |TwoDigits(f.hours)| == 2 && |TwoDigits(f.minutes)| == 2
    ensures |DateHalf(f)| == |IntToString(f.year)| + 6 && |TimeHalf(f)| == 5
    ensures |FormatDate(f)| == |IntToString(f.year)| + 12
  {
    assert |TwoDigits(f.month + 1)| == 2 by { TwoDigitsWidth(f.month + 1); }
    assert |TwoDigits(f.day)| == 2 by { TwoDigitsWidth(f.day); }
    assert |TwoDigits(f.hours)| == 2 by { TwoDigitsWidth(f.hours); }
    assert |TwoDigits(f.minutes)| == 2 by { TwoDigitsWidth(f.minutes); }
  }

  // ----- properties of RelativeDate -----

  /** The buckets of `getRelativeDate`, stated on the millisecond difference itself. */
  lemma RelativeDateBuckets(diffMs: int, f: DateFields)
    ensures 0 <= diffMs < MS_PER_DAY ==> RelativeDate(diffMs, f) == "오늘"
    ensures MS_PER_DAY <= diffMs < 2 * MS_PER_DAY ==> RelativeDate(diffMs, f) == "어제"
    ensures 2 * MS_PER_DAY <= diffMs < 7 * MS_PER_DAY ==>
      RelativeDate(diffMs, f) == IntToString(DaysElapsed(diffMs)) + "일 전" && 2 <= DaysElapsed(diffMs) < 7
    ensures 7 * MS_PER_DAY <= diffMs ==>
      RelativeDate(diffMs, f) == DateHalf(f)
  {
    var d := DaysElapsed(diffMs);
    if 0 <= diffMs < MS_PER_DAY { assert d == 0; }
    if MS_PER_DAY <= diffMs < 2 * MS_PER_DAY { assert d == 1; }
    if 2 * MS_PER_DAY <= diffMs < 7 * MS_PER_DAY { assert 2 <= d < 7; }
    if 7 * MS_PER_DAY <= diffMs {
      assert d >= 7;
    }
  }

  /** An entry dated in the future falls in the "n days ago" bucket with a negative n: "-1일 전". */
  lemma FutureDateShowsNegativeDays(diffMs: int, f: DateFields)
    requires diffMs < 0
    ensures DaysElapsed(diffMs) < 0
    ensures RelativeDate(diffMs, f) == "-" + NatToString(-DaysElapsed(diffMs)) + "일 전"
    ensures -MS_PER_DAY <= diffMs ==> RelativeDate(diffMs, f) == "-1일 전"
  {
    var d := DaysElapsed(diffMs);
    if -MS_PER_DAY <= diffMs { assert d == -1; }
  }
}
