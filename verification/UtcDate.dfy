/**
 Timestamps of legacy records. A date keeps its year in 16 bits and the parts of its time in 8, so
 the conversion from a timestamp loses something outside the years 0 to 65535 and, because the
 source's remainder is negative there, at every moment before 1970 that is not midnight.
 */
module UtcDate {
  import opened Basics
  import opened CivilDate

  const DAY := 86400

  /** Midnight of January 1 of years 0 and 65536, in days. */
  const FIRST_DAY := -719528
  const DAY_LIMIT := 23217004

  datatype UtcDate = UtcDate(
    date: Date, hour: nat, minute: nat, second: nat, tzBeforeGmt: bool, tzHour: nat, tzMinute: nat)

  /** The remainder that goes with `TruncDiv`: it has the sign of `n`. */
  function TruncMod(n: int, k: nat): int
    requires k > 0
  {
    n - k * TruncDiv(n, k)
  }

  // The time fields, each kept in 8 bits.

  function Hour(seconds: int): nat {
    TruncDiv(seconds, 3600) % 256
  }

  function Minute(seconds: int): nat {
    TruncMod(TruncDiv(seconds, 60), 60) % 256
  }

  function Second(seconds: int): nat {
    TruncMod(seconds, 60) % 256
  }

  function FromTimestamp(timestamp: int): UtcDate {
    var seconds := TruncMod(timestamp, DAY);
    var d := FromDays(TruncDiv(timestamp, DAY));
    UtcDate(d.(year := d.year % 65536), Hour(seconds), Minute(seconds), Second(seconds), false, 0, 0)
  }

  function SecondsOfDay(u: UtcDate): nat {
    u.hour * 3600 + u.minute * 60 + u.second
  }

  function Timestamp(u: UtcDate): int {
    ToDays(u.date) * DAY + SecondsOfDay(u)
      + (u.tzHour * 3600 + u.tzMinute * 60) * (if u.tzBeforeGmt then 1 else -1)
  }

  /** A moment that the fields of a date can hold. */
  predicate Representable(timestamp: int) {
    FIRST_DAY * DAY <= timestamp < DAY_LIMIT * DAY && (timestamp >= 0 || timestamp % DAY == 0)
  }

  predicate ValidUtc(u: UtcDate) {
    && Valid(u.date) && 0 <= u.date.year <= 65535
    && u.hour <= 23 && u.minute <= 59 && u.second <= 59
    && !u.tzBeforeGmt && u.tzHour == 0 && u.tzMinute == 0
  }

  // ---- The time of day --------------------------------------------------------------------------

  /** The seconds that the three time fields add up to. */
  function TimeSum(seconds: int): nat {
    Hour(seconds) * 3600 + Minute(seconds) * 60 + Second(seconds)
  }

  /** Hours, minutes and seconds of a number of seconds. */
  lemma SplitTime(n: nat, h: nat, m: nat, s: nat)
    requires n == 3600 * h + 60 * m + s && m <= 59 && s <= 59
    ensures n / 3600 == h && n / 60 == 60 * h + m && n % 60 == s && n / 60 % 60 == m
  {
    DivIs(n, 3600, h, 60 * m + s);
    DivIs(n, 60, 60 * h + m, s);
    DivIs(60 * h + m, 60, h, m);
  }

  lemma SplitSeconds(n: nat) returns (h: nat, m: nat, s: nat)
    requires n < DAY
    ensures n == 3600 * h + 60 * m + s && h <= 23 && m <= 59 && s <= 59
  {
    h := n / 3600;
    var r := n - 3600 * h;
    m := r / 60;
    s := r - 60 * m;
  }

  lemma FieldsOfTime(h: nat, m: nat, s: nat)
    requires h <= 23 && m <= 59 && s <= 59
    ensures var n := 3600 * h + 60 * m + s;
            Hour(n) == h && Minute(n) == m && Second(n) == s
  {
    SplitTime(3600 * h + 60 * m + s, h, m, s);
  }

  /** A negative remainder wraps around in at least one field. */
  lemma NegatedFields(h: int, m: int, s: int)
    requires 0 <= h <= 23 && 0 <= m <= 59 && 0 <= s <= 59 && h + m + s > 0
    ensures var n := -(3600 * h + 60 * m + s);
            Hour(n) == -h % 256 && Minute(n) == -m % 256 && Second(n) == -s % 256
  {
    var n := 3600 * h + 60 * m + s;
    SplitTime(n, h, m, s);
    assert TruncDiv(-n, 3600) == -h && TruncDiv(-n, 60) == -(60 * h + m) && TruncMod(-n, 60) == -s;
    NegatedMinutes(h, m);
  }

  lemma NegatedMinutes(h: int, m: int)
    requires 0 <= h && 0 <= m <= 59
    ensures TruncMod(-(60 * h + m), 60) == -m
  {
    DivIs(60 * h + m, 60, h, m);
  }

  lemma TimeSumBounds(seconds: int)
    requires -DAY < seconds < DAY
    ensures TimeSum(seconds) <= 256 * 3661 && (TimeSum(seconds) == seconds <==> seconds >= 0)
  {
    hide Hour, Minute, Second;
    if seconds >= 0 {
      var h, m, s := SplitSeconds(seconds);
      FieldsOfTime(h, m, s);
    } else {
      var h, m, s := SplitSeconds(-seconds);
      NegatedFields(h, m, s);
    }
  }

  // ---- The year ---------------------------------------------------------------------------------

  lemma JanuaryFirsts()
    ensures ToDays(Date(0, 1, 1)) == FIRST_DAY && ToDays(Date(65536, 1, 1)) == DAY_LIMIT
  {
  }

  lemma YearFits(d: Date)
    requires Valid(d)
    ensures 0 <= d.year <= 65535 <==> FIRST_DAY <= ToDays(d) < DAY_LIMIT
  {
    hide ToDays, Valid;
    JanuaryFirsts();
    DayWithinYear(d);
    if d.year < 0 {
      YearsApart(Date(d.year + 1, 1, 1), -(d.year + 1));
    } else if d.year <= 65535 {
      YearsApart(Date(0, 1, 1), d.year);
      YearsApart(Date(d.year + 1, 1, 1), 65535 - d.year);
    } else {
      YearsApart(Date(65536, 1, 1), d.year - 65536);
    }
  }

  /** A year that does not fit 16 bits comes back at least 65536 years away. */
  lemma YearIsLost(d: Date)
    requires !(0 <= d.year <= 65535)
    ensures var back := ToDays(d.(year := d.year % 65536));
            back >= ToDays(d) + 364 * 65536 || back <= ToDays(d) - 364 * 65536
  {
    hide ToDays;
    var y := d.year % 65536;
    if d.year < 0 {
      YearsApart(d, y - d.year);
      assert d.(year := d.year + (y - d.year)) == d.(year := y);
    } else {
      YearsApart(d.(year := y), d.year - y);
      assert d.(year := y).(year := y + (d.year - y)) == d;
    }
  }

  // ---- Round trips ------------------------------------------------------------------------------

  lemma SplitTimestamp(t: int)
    ensures var days, seconds := TruncDiv(t, DAY), TruncMod(t, DAY);
            t == days * DAY + seconds && -DAY < seconds < DAY && (t >= 0 ==> days >= 0 && seconds >= 0)
            && (t < 0 ==> days <= 0 && seconds <= 0) && (seconds == 0 <==> t % DAY == 0)
  {
    if t < 0 {
      var q, r := -t / DAY, -t % DAY;
      if r == 0 {
        DivIs(t, DAY, -q, 0);
      } else {
        DivIs(t, DAY, -q - 1, DAY - r);
      }
    }
  }

  lemma TimestampOfFields(t: int)
    ensures var d := FromDays(TruncDiv(t, DAY));
            Timestamp(FromTimestamp(t)) == ToDays(d.(year := d.year % 65536)) * DAY + TimeSum(TruncMod(t, DAY))
  {
    hide FromDays, ToDays, TruncDiv, TruncMod, Hour, Minute, Second;
  }

  /** `Timestamp` undoes `FromTimestamp` exactly on the representable moments. */
  lemma TimestampRoundTrip(t: int)
    ensures Timestamp(FromTimestamp(t)) == t <==> Representable(t)
  {
    hide FromDays, ToDays, TruncDiv, TruncMod, TimeSum, Timestamp, FromTimestamp;
    var days, seconds := TruncDiv(t, DAY), TruncMod(t, DAY);
    var d := FromDays(days);
    SplitTimestamp(t);
    TimestampOfFields(t);
    DaysRoundTrip(days);
    TimeSumBounds(seconds);
    YearFits(d);
    if 0 <= d.year <= 65535 {
      assert d.(year := d.year % 65536) == d;
    } else {
      YearIsLost(d);
    }
  }

  /** A representable moment gives a valid date. */
  lemma RepresentableIsValid(t: int)
    requires Representable(t)
    ensures ValidUtc(FromTimestamp(t))
  {
    hide FromDays, ToDays, TruncDiv, TruncMod, Hour, Minute, Second, Valid;
    var days, seconds := TruncDiv(t, DAY), TruncMod(t, DAY);
    SplitTimestamp(t);
    DaysRoundTrip(days);
    YearFits(FromDays(days));
    var h, m, s := SplitSeconds(seconds);
    FieldsOfTime(h, m, s);
  }

  lemma DivideTimestamp(days: int, seconds: nat)
    requires seconds < DAY && (days >= 0 || seconds == 0)
    ensures TruncDiv(days * DAY + seconds, DAY) == days && TruncMod(days * DAY + seconds, DAY) == seconds
  {
    if days >= 0 {
      DivIs(days * DAY + seconds, DAY, days, seconds);
    } else {
      DivIs(-days * DAY, DAY, -days, 0);
    }
  }

  lemma Epoch()
    ensures ToDays(Date(1970, 1, 1)) == 0
  {
  }

  lemma DaysSince1970(d: Date)
    requires Valid(d)
    ensures d.year >= 1970 <==> ToDays(d) >= 0
  {
    hide ToDays, Valid;
    DayWithinYear(d);
    Epoch();
    if d.year >= 1970 {
      YearsApart(Date(1970, 1, 1), d.year - 1970);
    } else {
      YearsApart(Date(d.year + 1, 1, 1), 1969 - d.year);
    }
  }

  /** `FromTimestamp` undoes `Timestamp` on every valid date from 1970 on, and before that only at midnight. */
  lemma UtcRoundTrip(u: UtcDate)
    requires ValidUtc(u)
    ensures FromTimestamp(Timestamp(u)) == u <==> u.date.year >= 1970 || SecondsOfDay(u) == 0
  {
    hide FromDays, ToDays, TruncDiv, TruncMod, Hour, Minute, Second, Valid;
    var days, seconds := ToDays(u.date), SecondsOfDay(u);
    DaysSince1970(u.date);
    if days >= 0 || seconds == 0 {
      DivideTimestamp(days, seconds);
      DateRoundTrip(u.date);
      FieldsOfTime(u.hour, u.minute, u.second);
    } else {
      DivIs(Timestamp(u), DAY, days, seconds);
      TimestampRoundTrip(Timestamp(u));
    }
  }

  /** The timestamp of a valid date is far from the ends of a 64-bit word. */
  lemma TimestampBounds(u: UtcDate)
    requires ValidUtc(u)
    ensures FIRST_DAY * DAY <= Timestamp(u) < DAY_LIMIT * DAY
  {
    hide ToDays, Valid;
    YearFits(u.date);
  }

  // ---- Every moment -----------------------------------------------------------------------------

  /**
   What any timestamp gives: that many whole days, hours, minutes and seconds after the epoch are read
   as they are, and before it each part wraps around in its byte; the year keeps its low 16 bits.
   */
  lemma FieldsOfMoment(days: nat, h: nat, m: nat, s: nat)
    requires h <= 23 && m <= 59 && s <= 59
    ensures var n, d := 86400 * days + 3600 * h + 60 * m + s, FromDays(days);
            FromTimestamp(n) == UtcDate(d.(year := d.year % 65536), h, m, s, false, 0, 0)
    ensures var n, d := 86400 * days + 3600 * h + 60 * m + s, FromDays(-(days as int));
            FromTimestamp(-n) ==
              UtcDate(d.(year := d.year % 65536), (256 - h) % 256, (256 - m) % 256, (256 - s) % 256, false, 0, 0)
  {
    hide FromDays, TruncDiv, TruncMod, Hour, Minute, Second;
    var t := 3600 * h + 60 * m + s;
    DivideTimestamp(days, t);
    DivideNegated(days, t);
    FieldsOfTime(h, m, s);
    if t > 0 {
      NegatedFields(h, m, s);
    }
  }

  lemma DivideNegated(days: nat, seconds: nat)
    requires seconds < DAY
    ensures var n := 86400 * days + seconds;
            TruncDiv(-n, DAY) == -(days as int) && TruncMod(-n, DAY) == -(seconds as int)
  {
    DivIs(86400 * days + seconds, DAY, days, seconds);
  }

  /** A local time is an hour earlier for each hour it is ahead of Greenwich, and later when it is behind. */
  lemma OffsetShifts(u: UtcDate)
    ensures var utc := u.(tzBeforeGmt := false, tzHour := 0, tzMinute := 0);
            Timestamp(u) - Timestamp(utc) ==
              if u.tzBeforeGmt then 3600 * u.tzHour + 60 * u.tzMinute else -(3600 * u.tzHour + 60 * u.tzMinute)
  {
  }
}
