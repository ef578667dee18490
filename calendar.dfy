/**
 * The proleptic Gregorian UTC calendar as chrono renders it: seconds since the Unix epoch
 * as a date and time of day, within chrono's range, and the `%Y`, `%m`, `%d`, `%H`, `%M`
 * and `%S` fields.
 */
module Calendar {
  import opened Text

  /** The last instant chrono can represent, 262143-12-31 23:59:59 UTC, in seconds since the epoch. */
  const MaxSeconds: nat := 8210298412799

  const SecondsPerDay: nat := 86400

  predicate Leap(y: nat) {
    y % 4 == 0 && (y % 100 != 0 || y % 400 == 0)
  }

  function DaysInYear(y: nat): nat {
    if Leap(y) then 366 else 365
  }

  function DaysInMonth(y: nat, m: nat): nat
    requires 1 <= m <= 12
  {
    if m == 2 then (if Leap(y) then 29 else 28)
    else if m == 4 || m == 6 || m == 9 || m == 11 then 30
    else 31
  }

  /** The days of year `y` from the start of month `m` to the end of the year. */
  function DaysFrom(y: nat, m: nat): nat
    requires 1 <= m <= 12
    decreases 12 - m
  {
    if m == 12 then DaysInMonth(y, 12) else DaysInMonth(y, m) + DaysFrom(y, m + 1)
  }

  lemma DaysFromJanuary(y: nat)
    ensures DaysFrom(y, 1) == DaysInYear(y)
  {
    assert DaysFrom(y, 10) == 92;
    assert DaysFrom(y, 7) == 184;
    assert DaysFrom(y, 3) == 306;
  }

  /** The year and day of the year (from zero) `days` days after the first day of year `y`. */
  function YearAndDay(y: nat, days: nat): (r: (nat, nat))
    ensures r.0 >= y && r.1 < DaysInYear(r.0)
    decreases days
  {
    if days < DaysInYear(y) then (y, days) else YearAndDay(y + 1, days - DaysInYear(y))
  }

  /** The month and day of the month of day `doy` (from zero), counting months from `m`. */
  function MonthAndDay(y: nat, m: nat, doy: nat): (r: (nat, nat))
    requires 1 <= m <= 12 && doy < DaysFrom(y, m)
    ensures m <= r.0 <= 12 && 1 <= r.1 <= DaysInMonth(y, r.0)
    decreases 12 - m
  {
    if doy < DaysInMonth(y, m) then (m, doy + 1) else MonthAndDay(y, m + 1, doy - DaysInMonth(y, m))
  }

  datatype DateTime = DateTime(year: nat, month: nat, day: nat, hour: nat, minute: nat, second: nat)

  /** The UTC calendar date and time `secs` seconds after the Unix epoch. */
  function FromTimestamp(secs: nat): (t: DateTime)
    ensures t.year >= 1970 && 1 <= t.month <= 12 && 1 <= t.day <= DaysInMonth(t.year, t.month)
    ensures t.hour < 24 && t.minute < 60 && t.second < 60
  {
    var (y, doy) := YearAndDay(1970, secs / SecondsPerDay);
    DaysFromJanuary(y);
    var (m, d) := MonthAndDay(y, 1, doy);
    var tod := secs % SecondsPerDay;
    DateTime(y, m, d, tod / 3600, tod % 3600 / 60, tod % 60)
  }

  /** The clock fields give back the seconds since midnight. */
  lemma TimeOfDay(secs: nat)
    ensures var t := FromTimestamp(secs);
      t.hour * 3600 + t.minute * 60 + t.second == secs % SecondsPerDay
  {
  }

  /** chrono's `%Y`: at least four digits, zero-padded, up to 9999; beyond that the year with an explicit `+`. */
  function YearText(y: nat): string {
    var digits := NatToString(y);
    if y > 9999 then "+" + digits
    else if |digits| < 4 then seq(4 - |digits|, _ => '0') + digits
    else digits
  }

  /** `%Y-%m-%d %H:%M:%S`. */
  function Render(t: DateTime): string
    requires t.month < 100 && t.day < 100 && t.hour < 100 && t.minute < 100 && t.second < 100
  {
    YearText(t.year) + "-" + TwoDigits(t.month) + "-" + TwoDigits(t.day) + " "
    + TwoDigits(t.hour) + ":" + TwoDigits(t.minute) + ":" + TwoDigits(t.second)
  }

  /** `s` is `t` laid out as `YYYY-mm-dd HH:MM:SS`: digits and separators in place, each field reading back. */
  predicate ShowsDateTime(s: string, t: DateTime) {
    && |s| == 19 && s[4] == '-' && s[7] == '-' && s[10] == ' ' && s[13] == ':' && s[16] == ':'
    && (forall i :: 0 <= i < 19 && i !in {4, 7, 10, 13, 16} ==> '0' <= s[i] <= '9')
    && ParseDigits(s[..4]) == t.year && ParseDigits(s[5..7]) == t.month && ParseDigits(s[8..10]) == t.day
    && ParseDigits(s[11..13]) == t.hour && ParseDigits(s[14..16]) == t.minute && ParseDigits(s[17..19]) == t.second
  }

  /** Every field of a rendered date in a four-digit year reads back from its fixed position. */
  lemma RenderFields(t: DateTime)
    requires 1000 <= t.year <= 9999
    requires t.month < 100 && t.day < 100 && t.hour < 100 && t.minute < 100 && t.second < 100
    ensures ShowsDateTime(Render(t), t)
  {
    var s := Render(t);
    FourDigitYear(t.year);
    var y := YearText(t.year);
    assert s == y + "-" + TwoDigits(t.month) + "-" + TwoDigits(t.day) + " "
                + TwoDigits(t.hour) + ":" + TwoDigits(t.minute) + ":" + TwoDigits(t.second);
    assert s[..4] == y;
    assert s[5..7] == TwoDigits(t.month);
    assert s[8..10] == TwoDigits(t.day);
    assert s[11..13] == TwoDigits(t.hour);
    assert s[14..16] == TwoDigits(t.minute);
    assert s[17..19] == TwoDigits(t.second);
  }

  /** A year from 1000 to 9999 fills exactly four digits that read back as the year. */
  lemma FourDigitYear(y: nat)
    requires 1000 <= y <= 9999
    ensures YearText(y) == NatToString(y)
    ensures |YearText(y)| == 4 && ParseDigits(YearText(y)) == y
  {
    NatToStringRoundTrip(y);
    var a, b, c := y / 10, y / 100, y / 1000;
    assert 100 <= a <= 999 && 10 <= b <= 99 && 1 <= c <= 9;
    assert a / 10 == b && b / 10 == c;
    OneMoreDigit(y);
    OneMoreDigit(a);
    OneMoreDigit(b);
  }

  lemma OneMoreDigit(n: nat)
    requires n >= 10
    ensures |NatToString(n)| == |NatToString(n / 10)| + 1
  {
  }

  lemma EpochDate()
    ensures FromTimestamp(0) == DateTime(1970, 1, 1, 0, 0, 0)
  {
    assert YearAndDay(1970, 0) == (1970, 0);
    assert MonthAndDay(1970, 1, 0) == (1, 1);
  }

  lemma EpochRender()
    ensures Render(DateTime(1970, 1, 1, 0, 0, 0)) == "1970-01-01 00:00:00"
  {
    Year1970();
    assert TwoDigits(1) == "01";
    assert TwoDigits(0) == "00";
  }

  lemma Year1970()
    ensures YearText(1970) == "1970"
  {
    FourDigitYear(1970);
    assert NatToString(1) == "1";
    assert NatToString(19) == "19";
    assert NatToString(197) == "197";
    assert NatToString(1970) == "1970";
  }
}
