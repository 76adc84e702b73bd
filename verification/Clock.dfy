/** Dates and times as the code reads and writes them: the two compact ADIF
    formats, RFC 3339 text, and conversion to UTC. The reading side follows the
    conventions of the chrono crate the source calls: a numeric item skips white
    space, then takes between one and its maximum of digits, and a year may carry
    a sign and then any number of digits. */
module Clock {
  import opened Basics
  import opened Text

  datatype Date = Date(year: int, month: nat, day: nat)

  /** A UTC date and time of day, to the nanosecond, without leap seconds. */
  datatype Moment = Moment(date: Date, hour: nat, minute: nat, second: nat, nanos: nat)

  predicate LeapYear(y: int) {
    y % 4 == 0 && (y % 100 != 0 || y % 400 == 0)
  }

  function DaysInMonth(y: int, m: nat): nat {
    if m == 2 then if LeapYear(y) then 29 else 28
    else if m in {4, 6, 9, 11} then 30 else 31
  }

  predicate ValidDate(d: Date) {
    1 <= d.month <= 12 && 1 <= d.day <= DaysInMonth(d.year, d.month)
  }

  predicate ValidMoment(m: Moment) {
    ValidDate(m.date) && m.hour < 24 && m.minute < 60 && m.second < 60 && m.nanos < 1_000_000_000
  }

  /** Years the ADIF and RFC 3339 formats write with four plain digits. */
  predicate FourDigitYear(d: Date) {
    0 <= d.year <= 9999
  }

  // ----- counting days -----

  function DaysBeforeMonth(y: int, m: nat): nat {
    if m <= 1 then 0 else DaysBeforeMonth(y, m - 1) + DaysInMonth(y, m - 1)
  }

  /** Days from the first day of year 1 in the proleptic Gregorian calendar. */
  function DayNumber(d: Date): int {
    var y := d.year - 1;
    365 * y + y / 4 - y / 100 + y / 400 + DaysBeforeMonth(d.year, d.month) + d.day - 1
  }

  function NextDay(d: Date): Date {
    if d.day < DaysInMonth(d.year, d.month) then d.(day := d.day + 1)
    else if d.month < 12 then Date(d.year, d.month + 1, 1)
    else Date(d.year + 1, 1, 1)
  }

  function PreviousDay(d: Date): Date
    requires ValidDate(d)
  {
    if d.day > 1 then d.(day := d.day - 1)
    else if d.month > 1 then Date(d.year, d.month - 1, DaysInMonth(d.year, d.month - 1))
    else Date(d.year - 1, 12, 31)
  }

  lemma {:induction false} DaysBeforeFrom(y: int, m: nat)
    requires m >= 3
    ensures DaysBeforeMonth(y, m) == DaysBeforeMonth(1, m) + if LeapYear(y) then 1 else 0
  {
    if m > 3 {
      DaysBeforeFrom(y, m - 1);
    } else {
      assert DaysBeforeMonth(y, 3) == DaysBeforeMonth(y, 2) + DaysInMonth(y, 2);
      assert DaysBeforeMonth(y, 2) == DaysBeforeMonth(y, 1) + 31;
      assert DaysBeforeMonth(1, 3) == DaysBeforeMonth(1, 2) + DaysInMonth(1, 2);
      assert DaysBeforeMonth(1, 2) == DaysBeforeMonth(1, 1) + 31;
    }
  }

  lemma DaysInYear(y: int)
    ensures DaysBeforeMonth(y, 12) + 31 == if LeapYear(y) then 366 else 365
  {
    DaysBeforeFrom(y, 12);
    assert DaysBeforeMonth(1, 12) == 334;
  }

  lemma CountFours(y: int)
    ensures y / 4 - (y - 1) / 4 == if y % 4 == 0 then 1 else 0
  {
  }

  lemma CountCenturies(y: int)
    ensures y / 100 - (y - 1) / 100 == if y % 100 == 0 then 1 else 0
  {
  }

  lemma CountFourCenturies(y: int)
    ensures y / 400 - (y - 1) / 400 == if y % 400 == 0 then 1 else 0
  {
  }

  lemma CenturiesAreFours(y: int)
    ensures y % 100 == 0 ==> y % 4 == 0
    ensures y % 400 == 0 ==> y % 100 == 0
  {
    if y % 100 == 0 {
      HundredIsFours(y, y / 100);
    }
    if y % 400 == 0 {
      FourHundredIsHundreds(y, y / 400);
    }
  }

  lemma HundredIsFours(y: int, k: int)
    requires y == 100 * k
    ensures y % 4 == 0
  {
    assert y == 4 * (25 * k);
  }

  lemma FourHundredIsHundreds(y: int, k: int)
    requires y == 400 * k
    ensures y % 100 == 0
  {
    assert y == 100 * (4 * k);
  }

  /** Counting with and without the last year, in counts alone. */
  lemma LeapSum(fours: int, fours': int, centuries: int, centuries': int, quads: int, quads': int, by4: bool, by100: bool, by400: bool)
    requires (by400 ==> by100) && (by100 ==> by4)
    requires fours - fours' == (if by4 then 1 else 0) && centuries - centuries' == (if by100 then 1 else 0)
    requires quads - quads' == if by400 then 1 else 0
    ensures fours - centuries + quads == fours' - centuries' + quads' + if by4 && (!by100 || by400) then 1 else 0
  {
  }

  lemma LeapCount(y: int)
    ensures y / 4 - y / 100 + y / 400 == (y - 1) / 4 - (y - 1) / 100 + (y - 1) / 400 + if LeapYear(y) then 1 else 0
  {
    CountFours(y);
    CountCenturies(y);
    CountFourCenturies(y);
    CenturiesAreFours(y);
    LeapSum(y / 4, (y - 1) / 4, y / 100, (y - 1) / 100, y / 400, (y - 1) / 400, y % 4 == 0, y % 100 == 0, y % 400 == 0);
  }

  lemma NextDayCounts(d: Date)
    requires ValidDate(d)
    ensures ValidDate(NextDay(d)) && DayNumber(NextDay(d)) == DayNumber(d) + 1
  {
    if d.day == DaysInMonth(d.year, d.month) && d.month == 12 {
      DaysInYear(d.year);
      LeapCount(d.year);
    }
  }

  lemma PreviousDayCounts(d: Date)
    requires ValidDate(d)
    ensures ValidDate(PreviousDay(d)) && NextDay(PreviousDay(d)) == d
    ensures DayNumber(PreviousDay(d)) == DayNumber(d) - 1
  {
    NextDayCounts(PreviousDay(d));
  }

  const NANOS_PER_SECOND: nat := 1_000_000_000

  /** Nanoseconds on one time line. */
  function Instant(m: Moment): int {
    (((DayNumber(m.date) * 24 + m.hour) * 60 + m.minute) * 60 + m.second) * NANOS_PER_SECOND + m.nanos
  }

  // ----- reading numbers -----

  function TakeNumber(s: string, max: nat): Option<(nat, string)> {
    var k := DigitRun(s, max);
    if k == 0 then None else Some((DigitsValue(s[..k]), s[k..]))
  }

  function TakeItem(s: string, max: nat): Option<(nat, string)> {
    TakeNumber(TrimStart(s), max)
  }

  function TakeYear(s: string): Option<(int, string)> {
    var t := TrimStart(s);
    var negative := t != "" && t[0] == '-';
    var number := if negative || (t != "" && t[0] == '+') then TakeNumber(t[1..], |t|) else TakeNumber(t, 4);
    if number.None? then None
    else
      var n: int := number.value.0;
      Some((if negative then -n else n, number.value.1))
  }

  const MIN_YEAR := -262143
  const MAX_YEAR := 262142

  /** NaiveDate::parse_from_str(s, "%Y%m%d"). */
  function ParseDate(s: string): (r: Option<Date>)
    ensures r.Some? ==> ValidDate(r.value)
  {
    match TakeYear(s)
    case None => None
    case Some((y, afterYear)) =>
      match TakeItem(afterYear, 2)
      case None => None
      case Some((m, afterMonth)) =>
        match TakeItem(afterMonth, 2)
        case None => None
        case Some((d, rest)) =>
          if rest == "" && MIN_YEAR <= y <= MAX_YEAR && ValidDate(Date(y, m, d)) then Some(Date(y, m, d)) else None
  }

  /** NaiveTime::parse_from_str(s, "%H%M%S"). */
  function ParseTime(s: string): (r: Option<(nat, nat, nat)>)
    ensures r.Some? ==> r.value.0 < 24 && r.value.1 < 60 && r.value.2 < 60
  {
    match TakeItem(s, 2)
    case None => None
    case Some((h, afterHour)) =>
      match TakeItem(afterHour, 2)
      case None => None
      case Some((m, afterMinute)) =>
        match TakeItem(afterMinute, 2)
        case None => None
        case Some((sec, rest)) =>
          if rest == "" && h < 24 && m < 60 && sec < 60 then Some((h, m, sec)) else None
  }

  // ----- writing -----

  function FormatYear(y: int): string {
    if 0 <= y <= 9999 then Pad4(y)
    else
      var digits := ShowNat(if y < 0 then -y else y);
      (if y < 0 then "-" else "+") + (if |digits| < 4 then seq(4 - |digits|, _ => '0') else "") + digits
  }

  /** format("%Y%m%d"). */
  function FormatDate(d: Date): string
    requires ValidDate(d)
  {
    FormatYear(d.year) + Pad2(d.month) + Pad2(d.day)
  }

  /** format("%H%M%S"). */
  function FormatTime(m: Moment): (s: string)
    requires ValidMoment(m)
    ensures |s| == 6
  {
    Pad2(m.hour) + Pad2(m.minute) + Pad2(m.second)
  }

  /** to_rfc3339 of a UTC moment on a whole second. */
  function ShowRfc3339(m: Moment): string
    requires ValidMoment(m) && m.nanos == 0
  {
    FormatYear(m.date.year) + "-" + Pad2(m.date.month) + "-" + Pad2(m.date.day) + "T" +
    Pad2(m.hour) + ":" + Pad2(m.minute) + ":" + Pad2(m.second) + "+00:00"
  }

  // ----- reading RFC 3339 -----

  predicate DigitsAt(s: string, lo: nat, hi: nat) {
    lo <= hi <= |s| && AllDigits(s[lo..hi])
  }

  /** The fraction of a second after a point, to nine places. */
  function Nanos(digits: string): (n: nat)
    requires AllDigits(digits)
    ensures n < NANOS_PER_SECOND
  {
    var nine := if |digits| < 9 then digits + seq(9 - |digits|, _ => '0') else digits[..9];
    DigitsBound(nine);
    DigitsValue(nine)
  }

  /** The offset from UTC in minutes. */
  function ParseOffset(s: string): (r: Option<int>)
    ensures r.Some? ==> -1440 < r.value < 1440
  {
    if s == "Z" || s == "z" then Some(0)
    else if |s| == 6 && (s[0] == '+' || s[0] == '-') && DigitsAt(s, 1, 3) && s[3] == ':' && DigitsAt(s, 4, 6) then
      var h, m := DigitsValue(s[1..3]), DigitsValue(s[4..6]);
      if h > 23 || m > 59 then None else Some(if s[0] == '+' then h * 60 + m else -(h * 60 + m))
    else None
  }

  /** with_timezone(&Utc): an offset moves the date by at most a day. */
  function ToUtc(local: Moment, offset: int): Moment
    requires ValidMoment(local) && -1440 < offset < 1440
  {
    var minutes := local.hour * 60 + local.minute - offset;
    var date := if minutes < 0 then PreviousDay(local.date) else if minutes >= 1440 then NextDay(local.date) else local.date;
    var inDay := if minutes < 0 then minutes + 1440 else if minutes >= 1440 then minutes - 1440 else minutes;
    Moment(date, inDay / 60, inDay % 60, local.second, local.nanos)
  }

  /** The conversion moves the instant by exactly the offset. */
  lemma ToUtcKeepsInstant(local: Moment, offset: int)
    requires ValidMoment(local) && -1440 < offset < 1440
    ensures ValidMoment(ToUtc(local, offset))
    ensures Instant(ToUtc(local, offset)) == Instant(local) - offset * 60 * NANOS_PER_SECOND
  {
    NextDayCounts(local.date);
    PreviousDayCounts(local.date);
  }

  /** The fixed layout up to the seconds, then at least one more character. */
  predicate Rfc3339Layout(s: string) {
    && |s| >= 20
    && DigitsAt(s, 0, 4) && s[4] == '-' && DigitsAt(s, 5, 7) && s[7] == '-' && DigitsAt(s, 8, 10)
    && (s[10] == 'T' || s[10] == 't' || s[10] == ' ')
    && DigitsAt(s, 11, 13) && s[13] == ':' && DigitsAt(s, 14, 16) && s[16] == ':' && DigitsAt(s, 17, 19)
  }

  function LocalMoment(s: string, nanos: nat): Moment
    requires Rfc3339Layout(s)
  {
    Moment(
      Date(DigitsValue(s[0..4]), DigitsValue(s[5..7]), DigitsValue(s[8..10])),
      DigitsValue(s[11..13]), DigitsValue(s[14..16]), DigitsValue(s[17..19]), nanos)
  }

  /** DateTime::parse_from_rfc3339, then with_timezone(&Utc). */
  function ParseRfc3339(s: string): (r: Option<Moment>)
    ensures r.Some? ==> ValidMoment(r.value)
  {
    if !Rfc3339Layout(s) then None
    else
      var run := if s[19] == '.' then DigitRun(s[20..], |s|) else 0;
      if s[19] == '.' && run == 0 then None
      else
        var local := LocalMoment(s, if s[19] == '.' then Nanos(s[20..][..run]) else 0);
        match ParseOffset(if s[19] == '.' then s[20 + run..] else s[19..])
        case None => None
        case Some(offset) =>
          if !ValidMoment(local) then None
          else ToUtcKeepsInstant(local, offset); Some(ToUtc(local, offset))
  }

  // ----- round trips -----

  lemma TakeDigits(a: string, b: string)
    requires AllDigits(a) && a != ""
    ensures TakeNumber(a + b, |a|) == Some((DigitsValue(a), b)) && TakeItem(a + b, |a|) == Some((DigitsValue(a), b))
    ensures TrimStart(a + b) == a + b
  {
    DigitRunStops(a, b, |a|);
    ConcatSlices(a, b);
    assert (a + b)[0] == a[0];
  }

  lemma DateRoundTrip(d: Date)
    requires ValidDate(d) && FourDigitYear(d)
    ensures ParseDate(FormatDate(d)) == Some(d)
  {
    var y, m, day := Pad4(d.year), Pad2(d.month), Pad2(d.day);
    Pad4Value(d.year);
    Pad2Value(d.month);
    Pad2Value(d.day);
    assert FormatDate(d) == y + (m + (day + ""));
    hide Pad4, Pad2, DigitRun, TakeNumber, DigitsValue, TrimStart, TakeItem;
    TakeDigits(y, m + (day + ""));
    TakeDigits(m, day + "");
    TakeDigits(day, "");
    assert (y + (m + (day + "")))[0] == y[0];
  }

  lemma TimeRoundTrip(m: Moment)
    requires ValidMoment(m)
    ensures ParseTime(FormatTime(m)) == Some((m.hour, m.minute, m.second))
  {
    var h, mi, s := Pad2(m.hour), Pad2(m.minute), Pad2(m.second);
    Pad2Value(m.hour);
    Pad2Value(m.minute);
    Pad2Value(m.second);
    assert FormatTime(m) == h + (mi + (s + ""));
    hide Pad2, DigitRun, TakeNumber, DigitsValue, TrimStart, TakeItem;
    TakeDigits(h, mi + (s + ""));
    TakeDigits(mi, s + "");
    TakeDigits(s, "");
  }

  /** Fixed-width fields sit at fixed places. */
  lemma FieldsInPlace(y: string, mo: string, d: string, h: string, mi: string, sec: string, rest: string)
    requires |y| == 4 && |mo| == |d| == |h| == |mi| == |sec| == 2
    ensures var s := y + "-" + mo + "-" + d + "T" + h + ":" + mi + ":" + sec + rest;
            && |s| == 19 + |rest| && s[4] == '-' && s[7] == '-' && s[10] == 'T' && s[13] == ':' && s[16] == ':'
            && s[..4] == s[0..4] == y && s[5..7] == mo && s[8..10] == d
            && s[11..13] == h && s[14..16] == mi && s[17..19] == sec && s[19..] == rest
  {
    var date := y + "-" + mo + "-" + d;
    assert |date| == 10 && date[4] == '-' && date[7] == '-';
    assert date[..4] == date[0..4] == y && date[5..7] == mo && date[8..10] == d;
    var time := h + ":" + mi + ":" + sec;
    assert |time| == 8 && time[2] == ':' && time[5] == ':';
    assert time[0..2] == h && time[3..5] == mi && time[6..8] == sec;
    var s := y + "-" + mo + "-" + d + "T" + h + ":" + mi + ":" + sec + rest;
    assert s == date + "T" + time + rest;
    assert s[..10] == date && s[11..19] == time && s[19..] == rest;
    SliceOfPrefix(s, 10, 0, 4);
    SliceOfPrefix(s, 10, 5, 7);
    SliceOfPrefix(s, 10, 8, 10);
    MiddleSlice(s, 11, 19, 0, 2);
    MiddleSlice(s, 11, 19, 3, 5);
    MiddleSlice(s, 11, 19, 6, 8);
    assert s[4] == date[4] && s[7] == date[7] && s[13] == time[2] && s[16] == time[5];
  }

  lemma SliceOfPrefix(s: string, n: nat, lo: nat, hi: nat)
    requires lo <= hi <= n <= |s|
    ensures s[..n][lo..hi] == s[lo..hi]
  {
  }

  lemma MiddleSlice(s: string, i: nat, j: nat, lo: nat, hi: nat)
    requires i <= j <= |s| && lo <= hi <= j - i
    ensures s[i..j][lo..hi] == s[i + lo..i + hi]
  {
    var a, b := s[i..j][lo..hi], s[i + lo..i + hi];
    assert |a| == |b|;
    forall k | 0 <= k < |a| ensures a[k] == b[k] {
      assert a[k] == s[i..j][lo + k] == s[i + lo + k] == b[k];
    }
  }

  lemma ShownReads(m: Moment)
    requires ValidMoment(m) && m.nanos == 0 && FourDigitYear(m.date)
    ensures var s := ShowRfc3339(m);
            Rfc3339Layout(s) && LocalMoment(s, 0) == m && s[19..] == "+00:00" && s[19] == '+'
  {
    FieldsInPlace(Pad4(m.date.year), Pad2(m.date.month), Pad2(m.date.day), Pad2(m.hour), Pad2(m.minute), Pad2(m.second), "+00:00");
    var s := ShowRfc3339(m);
    assert s[19] == s[19..][0];
    assert m.date.day < 100;
    hide Pad4, Pad2, DigitsValue, ShowRfc3339, DaysInMonth;
    Pad4Value(m.date.year);
    Pad2Value(m.date.month);
    Pad2Value(m.date.day);
    Pad2Value(m.hour);
    Pad2Value(m.minute);
    Pad2Value(m.second);
  }

  lemma Rfc3339RoundTrip(m: Moment)
    requires ValidMoment(m) && m.nanos == 0 && FourDigitYear(m.date)
    ensures ParseRfc3339(ShowRfc3339(m)) == Some(m)
  {
    ShownReads(m);
    ZeroOffset();
    ToUtcZero(m);
    hide ShowRfc3339, Rfc3339Layout, LocalMoment, ParseOffset, ToUtc, ValidMoment;
  }

  lemma ToUtcZero(m: Moment)
    requires ValidMoment(m)
    ensures ToUtc(m, 0) == m
  {
  }

  lemma ZeroOffset()
    ensures ParseOffset("+00:00") == Some(0)
  {
    var s := "+00:00";
    assert s[1..3] == s[4..6] == Pad2(0);
    Pad2Value(0);
    assert s[0] == '+' && s[3] == ':' && DigitsAt(s, 1, 3) && DigitsAt(s, 4, 6);
  }
}
