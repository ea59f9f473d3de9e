/** Naive (time-zone-free) timestamps and the calendar helpers of `utils/time.py`.
    A timestamp counts microseconds since 1970-01-01 00:00, which was a Thursday;
    clock reads (`datetime.now`, `utcnow`) are replaced by timestamps passed in. */
module Calendar {

  type Timestamp = int

  const MicrosPerMinute: int := 60_000_000
  const MicrosPerHour: int := 60 * MicrosPerMinute
  const MicrosPerDay: int := 24 * MicrosPerHour

  /** `dt.hour`, 0..23. Dafny's division floors for a positive divisor, as Python's does. */
  function Hour(t: Timestamp): (h: int)
    ensures 0 <= h < 24
  {
    (t / MicrosPerHour) % 24
  }

  /** Days since 1970-01-01. */
  function DayNumber(t: Timestamp): int {
    t / MicrosPerDay
  }

  /** `dt.weekday()`: Monday is 0 and Sunday is 6. */
  function Weekday(t: Timestamp): (d: int)
    ensures 0 <= d < 7
  {
    (DayNumber(t) + 3) % 7
  }

  /** `add_minutes(dt, minutes)`: `dt + timedelta(minutes=minutes)`. */
  function AddMinutes(t: Timestamp, minutes: int): (r: Timestamp)
    ensures r - t == minutes * MicrosPerMinute
  {
    t + minutes * MicrosPerMinute
  }

  /** `get_time_difference_minutes(dt1, dt2)`: `(dt1 - dt2).total_seconds() / 60`. */
  function DiffMinutes(t1: Timestamp, t2: Timestamp): (r: real)
    ensures r > 0.0 <==> t1 > t2
    ensures r == 0.0 <==> t1 == t2
  {
    (t1 - t2) as real / MicrosPerMinute as real
  }

  /** `is_business_hours(dt)`: 8 AM up to, but not including, 5 PM. */
  predicate IsBusinessHours(t: Timestamp) {
    8 <= Hour(t) < 17
  }

  /** `is_weekend(dt)`: Saturday or Sunday. */
  predicate IsWeekend(t: Timestamp) {
    Weekday(t) >= 5
  }

  /** Adding `m` minutes and measuring the difference gives back `m`. */
  lemma AddThenDiff(t: Timestamp, m: int)
    ensures DiffMinutes(AddMinutes(t, m), t) == m as real
  {
    assert AddMinutes(t, m) - t == m * MicrosPerMinute;
    assert (m * MicrosPerMinute) as real == m as real * MicrosPerMinute as real;
  }

  /** The difference is antisymmetric and vanishes on equal times. */
  lemma DiffAntisymmetric(a: Timestamp, b: Timestamp)
    ensures DiffMinutes(a, b) == -DiffMinutes(b, a)
    ensures DiffMinutes(a, a) == 0.0
  {
  }

  /** Business hours are a window of 9 whole hours of each day. */
  lemma BusinessHoursByHour(t: Timestamp, u: Timestamp)
    requires Hour(t) == Hour(u)
    ensures IsBusinessHours(t) <==> IsBusinessHours(u)
  {
  }

  // ----- Civil dates: the fields of a Python `datetime` -----

  datatype DateTime = DateTime(year: int, month: int, day: int, hour: int, minute: int)

  predicate IsLeapYear(y: int) {
    y % 4 == 0 && (y % 100 != 0 || y % 400 == 0)
  }

  function DaysInMonth(y: int, m: int): (n: int)
    requires 1 <= m <= 12
    ensures 28 <= n <= 31
  {
    if m == 2 then (if IsLeapYear(y) then 29 else 28)
    else if m == 4 || m == 6 || m == 9 || m == 11 then 30
    else 31
  }

  predicate ValidDateTime(dt: DateTime) {
    && 1 <= dt.month <= 12
    && 1 <= dt.day <= DaysInMonth(dt.year, dt.month)
    && 0 <= dt.hour < 24
    && 0 <= dt.minute < 60
  }

  /** Days from 1970-01-01 to the given civil date (proleptic Gregorian calendar),
      counted era by era: an era is 400 years of 146097 days. */
  function DaysFromCivil(y: int, m: int, d: int): int
    requires 1 <= m <= 12
  {
    var y' := if m <= 2 then y - 1 else y;
    var era := y' / 400;
    var yoe := y' % 400;
    var mp := if m > 2 then m - 3 else m + 9;
    var doy := (153 * mp + 2) / 5 + d - 1;
    var doe := yoe * 365 + yoe / 4 - yoe / 100 + doy;
    era * 146097 + doe - 719468
  }

  /** The timestamp of a civil date and time. */
  function ToTimestamp(dt: DateTime): Timestamp
    requires ValidDateTime(dt)
  {
    (DaysFromCivil(dt.year, dt.month, dt.day) * 1440 + dt.hour * 60 + dt.minute) * MicrosPerMinute
  }

  /** `dt.weekday()` computed from the civil date. */
  function CivilWeekday(dt: DateTime): (d: int)
    requires ValidDateTime(dt)
    ensures 0 <= d < 7
  {
    (DaysFromCivil(dt.year, dt.month, dt.day) + 3) % 7
  }

  /** The clock fields read back from a timestamp agree with the civil fields. */
  lemma {:induction false} ToTimestampFields(dt: DateTime)
    requires ValidDateTime(dt)
    ensures Hour(ToTimestamp(dt)) == dt.hour
    ensures DayNumber(ToTimestamp(dt)) == DaysFromCivil(dt.year, dt.month, dt.day)
    ensures Weekday(ToTimestamp(dt)) == CivilWeekday(dt)
  {
    var days := DaysFromCivil(dt.year, dt.month, dt.day);
    var t := ToTimestamp(dt);
    var inHour := dt.minute * MicrosPerMinute;
    TimestampSplit(days, dt.hour, dt.minute);
    assert t == (days * 24 + dt.hour) * MicrosPerHour + inHour;
    DivSplit(days * 24 + dt.hour, inHour, MicrosPerHour);
    DivSplit(days, dt.hour, 24);
    assert t == days * MicrosPerDay + (dt.hour * MicrosPerHour + inHour);
    DivSplit(days, dt.hour * MicrosPerHour + inHour, MicrosPerDay);
  }

  /** A timestamp is its whole days, then its whole hours, then its minutes. */
  lemma TimestampSplit(days: int, hour: int, minute: int)
    requires 0 <= hour < 24 && 0 <= minute < 60
    ensures (days * 1440 + hour * 60 + minute) * MicrosPerMinute
            == (days * 24 + hour) * MicrosPerHour + minute * MicrosPerMinute
    ensures (days * 1440 + hour * 60 + minute) * MicrosPerMinute
            == days * MicrosPerDay + (hour * MicrosPerHour + minute * MicrosPerMinute)
    ensures 0 <= minute * MicrosPerMinute < MicrosPerHour
    ensures 0 <= hour * MicrosPerHour + minute * MicrosPerMinute < MicrosPerDay
  {
  }

  /** Division and remainder undo `q * k + r` for a remainder in range. */
  lemma DivSplit(q: int, r: int, k: int)
    requires 0 <= r < k
    ensures (q * k + r) / k == q
    ensures (q * k + r) % k == r
  {
    var x := q * k + r;
    var d, m := x / k, x % k;
    assert (d - q) * k == r - m;
    if d > q {
      MulAtLeast(d - q, k);
    } else if d < q {
      MulAtLeast(q - d, k);
    }
  }

  lemma {:induction false} MulAtLeast(a: int, k: int)
    requires a >= 1 && k >= 0
    ensures a * k >= k
    decreases a
  {
    if a > 1 {
      MulAtLeast(a - 1, k);
      assert a * k == (a - 1) * k + k;
    }
  }

  /** The epoch is day 0, and 2024-01-15 was a Monday. */
  lemma CivilAnchors()
    ensures DaysFromCivil(1970, 1, 1) == 0
    ensures DaysFromCivil(2024, 1, 15) == 19737
    ensures CivilWeekday(DateTime(2024, 1, 15, 14, 30)) == 0
  {
  }
}
