/** Date arithmetic and formatting (src/storage/helpers.js). Instants are
    milliseconds; a local day is a fixed 86 400 000 ms, counted from the
    epoch, so "local midnight" is a multiple of DayMs. */
module Helpers {
  import opened Base
  import opened Schema
  import Calendar

  const DayMs := 86_400_000

  /** Day number of an instant: whole days since the epoch, rounded down. */
  function Day(t: Time): int
  {
    t / DayMs
  }

  /** startOfDay: local midnight at the start of t's day. */
  function StartOfDay(t: Time): (r: Time)
    ensures r <= t < r + DayMs
    ensures Day(r) == Day(t)
  {
    Day(t) * DayMs
  }

  /** endOfDay: the last millisecond (23:59:59.999) of t's day. */
  function EndOfDay(t: Time): (r: Time)
    ensures StartOfDay(t) <= t <= r
    ensures Day(r) == Day(t) && Day(r + 1) == Day(t) + 1
  {
    StartOfDay(t) + DayMs - 1
  }

  /** isBetweenInclusive. */
  predicate IsBetweenInclusive(d: Time, s: Time, e: Time)
  {
    d >= s && d <= e
  }

  /** daysBetween: whole days between the midnights of the two days. It
      depends only on the two calendar days, not on the hours. */
  function DaysBetween(from: Time, to: Time): (r: int)
    ensures r == Day(to) - Day(from)
  {
    (StartOfDay(to) - StartOfDay(from)) / DayMs
  }

  /** Two instants of the same day are 0 days apart; one midnight crossed
      is one day, whatever the hours. */
  lemma DaysBetweenCalendar(a: Time, b: Time)
    ensures Day(a) == Day(b) ==> DaysBetween(a, b) == 0
    ensures Day(b) == Day(a) + 1 ==> DaysBetween(a, b) == 1
    ensures DaysBetween(a, b) == -DaysBetween(b, a)
  {
  }

  /** isWithinLastDays, with "now" passed in: false without a date,
      otherwise 0 <= daysBetween(date, now) <= days. */
  function IsWithinLastDays(date: Option<Time>, days: int, now: Time): (r: bool)
    ensures date.None? ==> !r
    ensures date.Some? ==> (r <==> Day(now) - days <= Day(date.value) <= Day(now))
  {
    match date
    case None => false
    case Some(d) =>
      var diff := DaysBetween(d, now);
      diff >= 0 && diff <= days
  }

  /** The same window in milliseconds: from midnight `days` days ago to the
      end of today. */
  lemma WithinLastDaysWindow(d: Time, days: int, now: Time)
    ensures IsWithinLastDays(Some(d), days, now)
        <==> StartOfDay(now) - days * DayMs <= d <= EndOfDay(now)
  {
    var lo := StartOfDay(now) - days * DayMs;
    assert lo == (Day(now) - days) * DayMs;
    assert Day(lo) == Day(now) - days;
    if d < lo {
      assert Day(d) < Day(now) - days;
    }
    if d > EndOfDay(now) {
      assert Day(d) > Day(now);
    }
  }

  predicate InRange(a: Appointment, lo: Time, hi: Time)
  {
    IsBetweenInclusive(a.dateAt, lo, hi)
  }

  /** filterAppointmentsByRange: in their original order, the appointments
      from the start of start's day through the end of end's day. */
  function FilterAppointmentsByRange(apts: seq<Appointment>, start: Time, end: Time): (r: seq<Appointment>)
    ensures forall a :: a in r <==> a in apts && StartOfDay(start) <= a.dateAt <= EndOfDay(end)
    ensures |r| <= |apts|
    ensures Day(start) > Day(end) ==> r == []
  {
    var lo, hi := StartOfDay(start), EndOfDay(end);
    var r := Filter(apts, a => InRange(a, lo, hi));
    assert Day(start) > Day(end) ==> hi < lo;
    assert r != [] ==> r[0] in r;
    r
  }

  /** The range is made of whole days: an appointment is kept exactly when
      its day lies between start's day and end's day. */
  lemma RangeByDays(apts: seq<Appointment>, start: Time, end: Time)
    ensures forall a :: a in FilterAppointmentsByRange(apts, start, end)
                    <==> a in apts && Day(start) <= Day(a.dateAt) <= Day(end)
  {
    forall a | a in apts
      ensures StartOfDay(start) <= a.dateAt <= EndOfDay(end) <==> Day(start) <= Day(a.dateAt) <= Day(end)
    {
      DayOrder(start, a.dateAt);
      DayOrder(a.dateAt, end);
    }
  }

  /** Midnight of a's day is at most b exactly when a's day is not after
      b's; b is at most the end of a's day exactly when b's day is not
      after a's. */
  lemma DayOrder(a: Time, b: Time)
    ensures StartOfDay(a) <= b <==> Day(a) <= Day(b)
    ensures b <= EndOfDay(a) <==> Day(b) <= Day(a)
  {
    if Day(a) < Day(b) {
      assert StartOfDay(b) >= (Day(a) + 1) * DayMs;
    }
  }

  /** The order both last-visit lists use: a client never seen first, then
      more days since the last visit first. */
  function DaysSinceRank(daysSince: Option<int>): Rank
  {
    if daysSince.None? then Highest else Score(daysSince.value)
  }

  /** A JavaScript Date as the code sees it: null (falsy), an Invalid
      Date (NaN), or an instant. */
  datatype DateValue = Null | Invalid | Valid(time: Time)

  /** A stored optional timestamp as a date argument. */
  function DateOf(t: Option<Time>): DateValue
  {
    if t.Some? then Valid(t.value) else Null
  }

  /** parseYYYYMMDDToDate: null for an empty string; otherwise split on
      '-' and build new Date(year, month - 1, day) at local midnight.
      A missing or non-numeric part gives an Invalid Date. */
  function ParseYmd(s: string): (r: DateValue)
    ensures r.Null? <==> s == ""
    ensures r.Valid? ==> r.time % DayMs == 0
  {
    if s == "" then Null
    else
      var parts := Split(s, '-');
      if |parts| < 3 then Invalid
      else
        var y, m, d := ParseNumber(parts[0]), ParseNumber(parts[1]), ParseNumber(parts[2]);
        if y.Some? && m.Some? && d.Some? then
          Valid(Calendar.DateConstructorDay(y.value, m.value - 1, d.value) * DayMs)
        else Invalid
  }

  /** toDateInputValue: YYYY-MM-DD of t's local day. */
  function ToDateInputValue(t: Time): string
  {
    var c := Calendar.CivilFromDays(Day(t));
    IntToString(c.year) + "-" + Pad2(NatToString(c.month)) + "-" + Pad2(NatToString(c.day))
  }

  /** Parsing the date-input text of an instant gives local midnight of
      its day, for every year the Date constructor does not remap
      (years 0..99 land in the 1900s; negative years carry a '-'). */
  lemma ParseToDateInputValue(t: Time)
    requires Calendar.CivilFromDays(Day(t)).year >= 100
    ensures ParseYmd(ToDateInputValue(t)) == Valid(StartOfDay(t))
  {
    var c := Calendar.CivilFromDays(Day(t));
    var ys, ms, ds := NatToString(c.year), Pad2(NatToString(c.month)), Pad2(NatToString(c.day));
    DateInputParts(t);
    DateInputNumbers(c.year, c.month, c.day);
    var parts := Split(ToDateInputValue(t), '-');
    assert parts == [ys, ms, ds];
    assert Calendar.DateConstructorDay(c.year, c.month - 1, c.day) == Day(t);
  }

  /** The date-input text of an instant in a year from 0 on splits on '-'
      into the year, the two-digit month and the two-digit day. */
  lemma DateInputParts(t: Time)
    requires Calendar.CivilFromDays(Day(t)).year >= 0
    ensures var c := Calendar.CivilFromDays(Day(t));
      Split(ToDateInputValue(t), '-')
        == [NatToString(c.year), Pad2(NatToString(c.month)), Pad2(NatToString(c.day))]
  {
    var c := Calendar.CivilFromDays(Day(t));
    var ys, ms, ds := NatToString(c.year), Pad2(NatToString(c.month)), Pad2(NatToString(c.day));
    Pad2RoundTrip(c.month);
    Pad2RoundTrip(c.day);
    assert IntToString(c.year) == ys;
    assert ToDateInputValue(t) == ys + "-" + ms + "-" + ds;
    SplitThree(ys, ms, ds);
  }

  /** The three parts read back as the numbers they were written from. */
  lemma DateInputNumbers(y: nat, m: nat, d: nat)
    requires m < 100 && d < 100
    ensures ParseNumber(NatToString(y)) == Some(y)
    ensures ParseNumber(Pad2(NatToString(m))) == Some(m)
    ensures ParseNumber(Pad2(NatToString(d))) == Some(d)
  {
    NatToStringRoundTrip(y);
    Pad2RoundTrip(m);
    Pad2RoundTrip(d);
  }

  /** Three dash-free pieces joined by dashes split back into the pieces. */
  lemma SplitThree(a: string, b: string, c: string)
    requires forall i :: 0 <= i < |a| ==> IsDigit(a[i])
    requires forall i :: 0 <= i < |b| ==> IsDigit(b[i])
    requires forall i :: 0 <= i < |c| ==> IsDigit(c[i])
    ensures Split(a + "-" + b + "-" + c, '-') == [a, b, c]
  {
    assert '-' !in a && '-' !in b && '-' !in c;
    assert a + "-" + b + "-" + c == a + ['-'] + (b + ['-'] + c);
    SplitJoin(a, '-', b + ['-'] + c);
    SplitJoin(b, '-', c);
    SplitNone(c, '-');
  }

  /** formatDateBR: '' for a falsy date, otherwise DD/MM/YYYY. */
  function FormatDateBR(d: DateValue): (r: string)
    ensures d.Null? <==> r == ""
  {
    match d
    case Null => ""
    case Invalid => "NaN/NaN/NaN"
    case Valid(t) =>
      var c := Calendar.CivilFromDays(Day(t));
      Pad2(NatToString(c.day)) + "/" + Pad2(NatToString(c.month)) + "/" + IntToString(c.year)
  }

  /** The text of formatDateBR reads back as the day, the month and the
      year of the instant, each day and month in two digits. */
  lemma FormatDateBRFields(t: Time)
    ensures var r := FormatDateBR(Valid(t));
      var c := Calendar.CivilFromDays(Day(t));
      && |r| >= 7 && r[2] == '/' && r[5] == '/'
      && IsDigit(r[0]) && IsDigit(r[1]) && IsDigit(r[3]) && IsDigit(r[4])
      && DigitsValue(r[..2]) == c.day
      && DigitsValue(r[3..5]) == c.month
      && r[6..] == IntToString(c.year)
  {
    var c := Calendar.CivilFromDays(Day(t));
    Pad2RoundTrip(c.day);
    Pad2RoundTrip(c.month);
    var r := FormatDateBR(Valid(t));
    var dd, mm := Pad2(NatToString(c.day)), Pad2(NatToString(c.month));
    assert r == dd + "/" + mm + "/" + IntToString(c.year);
    assert r[..2] == dd && r[3..5] == mm;
  }

  /** formatRelativeTime, with "now" passed in. */
  function FormatRelativeTime(d: Option<Time>, now: Time): (r: string)
    ensures d.None? <==> r == ""
  {
    match d
    case None => ""
    case Some(t) =>
      var diffSec := (now - t) / 1000;
      var diffMin := diffSec / 60;
      var diffHour := diffMin / 60;
      var diffDay := diffHour / 24;
      if diffSec < 60 then "agora"
      else if diffMin < 60 then NatToString(diffMin) + "min atrás"
      else if diffHour < 24 then NatToString(diffHour) + "h atrás"
      else if diffDay == 1 then "ontem"
      else if diffDay < 7 then NatToString(diffDay) + " dias atrás"
      else FormatDateBR(Valid(t))
  }

  /** The thresholds of formatRelativeTime in milliseconds of elapsed time. */
  lemma RelativeTimeThresholds(t: Time, now: Time)
    ensures var e, r := now - t, FormatRelativeTime(Some(t), now);
      && (e < 60_000 ==> r == "agora")
      && (60_000 <= e < 3_600_000 ==> r == NatToString(e / 60_000) + "min atrás")
      && (3_600_000 <= e < DayMs ==> r == NatToString(e / 3_600_000) + "h atrás")
      && (DayMs <= e < 2 * DayMs ==> r == "ontem")
      && (2 * DayMs <= e < 7 * DayMs ==> r == NatToString(e / DayMs) + " dias atrás")
      && (7 * DayMs <= e ==> r == FormatDateBR(Valid(t)))
  {
    var e := now - t;
    assert e / 1000 / 60 == e / 60_000;
    assert e / 1000 / 60 / 60 == e / 3_600_000;
    assert e / 1000 / 60 / 60 / 24 == e / DayMs;
  }
}
