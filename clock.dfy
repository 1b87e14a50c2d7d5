/** Python's `datetime`, as far as the service uses it: naive date-times in the
    proleptic Gregorian calendar, their difference as a normalised `timedelta`,
    and the `%Y%m%d%H%M%S%f` upload timestamp. */
module Clock {
  import opened Py

  datatype DateTime = DateTime(year: int, month: int, day: int,
                               hour: int, minute: int, second: int, microsecond: int)

  const MicrosPerSecond: int := 1000000
  const SecondsPerDay: int := 86400
  const MicrosPerDay: int := 86400000000

  predicate IsLeapYear(y: int)
  {
    y % 4 == 0 && (y % 100 != 0 || y % 400 == 0)
  }

  function DaysInMonth(y: int, m: int): int
    requires 1 <= m <= 12
  {
    if m == 2 then (if IsLeapYear(y) then 29 else 28)
    else if m == 4 || m == 6 || m == 9 || m == 11 then 30
    else 31
  }

  /** The values `datetime.datetime` admits (MINYEAR = 1, MAXYEAR = 9999). */
  predicate Valid(d: DateTime)
  {
    1 <= d.year <= 9999 && 1 <= d.month <= 12 && 1 <= d.day <= DaysInMonth(d.year, d.month)
    && 0 <= d.hour < 24 && 0 <= d.minute < 60 && 0 <= d.second < 60
    && 0 <= d.microsecond < MicrosPerSecond
  }

  function DaysBeforeYear(y: int): int
    requires y >= 1
  {
    var p := y - 1;
    p * 365 + p / 4 - p / 100 + p / 400
  }

  function DaysBeforeMonth(y: int, m: int): (n: int)
    requires 1 <= m <= 12
    ensures 0 <= n <= 31 * (m - 1)
  {
    if m == 1 then 0 else DaysBeforeMonth(y, m - 1) + DaysInMonth(y, m - 1)
  }

  /** `d.toordinal()`: 0001-01-01 is day 1. */
  function Ordinal(d: DateTime): (n: int)
    requires Valid(d)
    ensures n >= 1
  {
    DaysBeforeYear(d.year) + DaysBeforeMonth(d.year, d.month) + d.day
  }

  /** Microseconds since 0001-01-01 00:00:00 less one day. */
  function Instant(d: DateTime): (us: int)
    requires Valid(d)
    ensures Ordinal(d) * MicrosPerDay <= us < (Ordinal(d) + 1) * MicrosPerDay
    ensures us - Ordinal(d) * MicrosPerDay
            == ((d.hour * 3600 + d.minute * 60 + d.second) * MicrosPerSecond) + d.microsecond
  {
    ((Ordinal(d) * SecondsPerDay + d.hour * 3600 + d.minute * 60 + d.second) * MicrosPerSecond)
    + d.microsecond
  }

  /** The initial `scored_time`, `strptime('2000-01-01 00:00:00', ...)`. */
  const Epoch2000: DateTime := DateTime(2000, 1, 1, 0, 0, 0, 0)

  lemma Epoch2000Ordinal()
    ensures Valid(Epoch2000) && Ordinal(Epoch2000) == 730120
  {
  }

  /** A `timedelta` as Python stores it: days, then seconds and microseconds
      that are never negative. */
  datatype TimeDelta = TimeDelta(days: int, seconds: int, microseconds: int)

  ghost predicate Normalised(t: TimeDelta, us: int)
  {
    0 <= t.seconds < SecondsPerDay && 0 <= t.microseconds < MicrosPerSecond
    && (t.days * SecondsPerDay + t.seconds) * MicrosPerSecond + t.microseconds == us
  }

  /** The `timedelta` whose total length is `us` microseconds. */
  function FromMicros(us: int): (t: TimeDelta)
    ensures Normalised(t, us)
  {
    var r := us % MicrosPerDay;
    TimeDelta(us / MicrosPerDay, r / MicrosPerSecond, r % MicrosPerSecond)
  }

  /** The normal form is unique, so `FromMicros` is the one Python computes. */
  lemma NormalisedUnique(t: TimeDelta, us: int)
    requires Normalised(t, us)
    ensures t == FromMicros(us)
  {
    var u := FromMicros(us);
    var a := t.seconds * MicrosPerSecond + t.microseconds;
    var b := u.seconds * MicrosPerSecond + u.microseconds;
    assert 0 <= a < MicrosPerDay && 0 <= b < MicrosPerDay;
    assert t.days * MicrosPerDay + a == u.days * MicrosPerDay + b;
    assert t.days == (t.days * MicrosPerDay + a) / MicrosPerDay;
    assert t.seconds == a / MicrosPerSecond;
  }

  /** `a - b` for two `datetime` values. */
  function Subtract(a: DateTime, b: DateTime): (t: TimeDelta)
    requires Valid(a) && Valid(b)
    ensures Normalised(t, Instant(a) - Instant(b))
  {
    FromMicros(Instant(a) - Instant(b))
  }

  /** `(a - b).seconds`: whole days are dropped, so the value is the elapsed
      time modulo one day, in whole seconds. */
  function SecondsComponent(a: DateTime, b: DateTime): (s: int)
    requires Valid(a) && Valid(b)
    ensures 0 <= s < SecondsPerDay
    ensures s == ((Instant(a) - Instant(b)) % MicrosPerDay) / MicrosPerSecond
  {
    Subtract(a, b).seconds
  }

  /** Adding whole days to the elapsed time leaves `.seconds` unchanged. */
  lemma SecondsIgnoreDays(a: DateTime, b: DateTime, a': DateTime, days: int)
    requires Valid(a) && Valid(b) && Valid(a')
    requires Instant(a') == Instant(a) + days * MicrosPerDay
    ensures SecondsComponent(a', b) == SecondsComponent(a, b)
  {
    var d := Instant(a) - Instant(b);
    var t := TimeDelta(Subtract(a, b).days + days, Subtract(a, b).seconds, Subtract(a, b).microseconds);
    assert Normalised(t, d + days * MicrosPerDay);
    NormalisedUnique(t, Instant(a') - Instant(b));
  }

  // ---------------------------------------------------------------------------
  // '{0:%Y%m%d%H%M%S%f}'.format(d)

  predicate IsDigit(c: char)
  {
    '0' <= c <= '9'
  }

  function Digit(n: int): (c: char)
    requires 0 <= n < 10
    ensures IsDigit(c)
  {
    ('0' as int + n) as char
  }

  function Pow10(w: nat): (p: nat)
    ensures p >= 1
  {
    if w == 0 then 1 else 10 * Pow10(w - 1)
  }

  /** The last `width` decimal digits of `n`, zero-padded (`%02d`, `%06d`). */
  function Padded(n: nat, width: nat): (s: string)
    ensures |s| == width
    ensures forall k :: 0 <= k < |s| ==> IsDigit(s[k])
  {
    if width == 0 then "" else Padded(n / 10, width - 1) + [Digit(n % 10)]
  }

  function DigitCount(n: nat): (k: nat)
    ensures k >= 1
  {
    if n < 10 then 1 else 1 + DigitCount(n / 10)
  }

  /** `str(n)`: no padding. This is what the C library's `%Y` prints for years
      below 1000 on glibc; four-digit years are unaffected. */
  function Decimal(n: nat): (s: string)
    ensures |s| == DigitCount(n)
    ensures forall k :: 0 <= k < |s| ==> IsDigit(s[k])
    ensures ValueOf(s) == n
  {
    DigitCountBound(n);
    ValueOfPadded(n, DigitCount(n));
    Padded(n, DigitCount(n))
  }

  /** `DigitCount(n)` digits are enough for `n`. */
  lemma {:induction false} DigitCountBound(n: nat)
    ensures n < Pow10(DigitCount(n))
  {
    if n >= 10 {
      DigitCountBound(n / 10);
    }
  }

  lemma FourDigitYear(y: nat)
    requires 1000 <= y <= 9999
    ensures DigitCount(y) == 4
  {
    assert DigitCount(y / 10 / 10 / 10) == 1;
    assert DigitCount(y / 10 / 10) == 2;
    assert DigitCount(y / 10) == 3;
  }

  /** The upload timestamp: year, month, day, hour, minute, second and
      microsecond, each zero-padded except the year. */
  function Timestamp(d: DateTime): (s: string)
    requires Valid(d)
    ensures forall k :: 0 <= k < |s| ==> IsDigit(s[k])
    ensures d.year >= 1000 ==> |s| == 20
  {
    assert d.year >= 1000 ==> DigitCount(d.year) == 4 by {
      if d.year >= 1000 { FourDigitYear(d.year); }
    }
    var y, mo, da := Decimal(d.year), Padded(d.month, 2), Padded(d.day, 2);
    var h, mi, se, us := Padded(d.hour, 2), Padded(d.minute, 2), Padded(d.second, 2), Padded(d.microsecond, 6);
    DigitsConcat(y, mo);
    DigitsConcat(y + mo, da);
    DigitsConcat(y + mo + da, h);
    DigitsConcat(y + mo + da + h, mi);
    DigitsConcat(y + mo + da + h + mi, se);
    DigitsConcat(y + mo + da + h + mi + se, us);
    y + mo + da + h + mi + se + us
  }

  predicate AllDigits(s: string)
  {
    forall k :: 0 <= k < |s| ==> IsDigit(s[k])
  }

  lemma DigitsConcat(a: string, b: string)
    requires AllDigits(a) && AllDigits(b)
    ensures AllDigits(a + b)
  {
    assert forall k :: 0 <= k < |a + b| ==> (a + b)[k] == if k < |a| then a[k] else b[k - |a|];
  }

  /** The number a string of decimal digits denotes. */
  function ValueOf(s: string): nat
    requires forall k :: 0 <= k < |s| ==> IsDigit(s[k])
  {
    if s == [] then 0
    else
      assert IsDigit(s[|s| - 1]);
      10 * ValueOf(s[..|s| - 1]) + (s[|s| - 1] as int - '0' as int)
  }

  lemma {:induction false} ValueOfPadded(n: nat, width: nat)
    requires n < Pow10(width)
    ensures ValueOf(Padded(n, width)) == n
  {
    if width > 0 {
      ValueOfPadded(n / 10, width - 1);
      var s := Padded(n, width);
      assert s[..|s| - 1] == Padded(n / 10, width - 1);
    }
  }

  /** Reads a 20-digit timestamp back into its seven fields. */
  function ParseTimestamp(s: string): (r: Option<DateTime>)
    ensures r.Some? ==> |s| == 20
  {
    if |s| == 20 && forall k :: 0 <= k < |s| ==> IsDigit(s[k]) then
      Some(DateTime(ValueOf(s[0..4]), ValueOf(s[4..6]), ValueOf(s[6..8]), ValueOf(s[8..10]),
                    ValueOf(s[10..12]), ValueOf(s[12..14]), ValueOf(s[14..20])))
    else None
  }

  /** Where the seven fields sit in a 20-character timestamp. */
  lemma SevenFields(y: string, mo: string, da: string, h: string, mi: string, se: string, us: string)
    requires |y| == 4 && |mo| == 2 && |da| == 2 && |h| == 2 && |mi| == 2 && |se| == 2 && |us| == 6
    requires forall k :: 0 <= k < |y| ==> IsDigit(y[k])
    requires forall k :: 0 <= k < |mo| ==> IsDigit(mo[k])
    requires forall k :: 0 <= k < |da| ==> IsDigit(da[k])
    requires forall k :: 0 <= k < |h| ==> IsDigit(h[k])
    requires forall k :: 0 <= k < |mi| ==> IsDigit(mi[k])
    requires forall k :: 0 <= k < |se| ==> IsDigit(se[k])
    requires forall k :: 0 <= k < |us| ==> IsDigit(us[k])
    ensures var s := y + mo + da + h + mi + se + us;
      |s| == 20 && (forall k :: 0 <= k < 20 ==> IsDigit(s[k])) && s[0..4] == y && s[4..6] == mo && s[6..8] == da && s[8..10] == h
      && s[10..12] == mi && s[12..14] == se && s[14..20] == us
  {
  }

  /** For four-digit years the timestamp is 20 digits and determines the
      date-time it was made from. */
  lemma TimestampRoundTrip(d: DateTime)
    requires Valid(d) && d.year >= 1000
    ensures |Timestamp(d)| == 20
    ensures forall k :: 0 <= k < 20 ==> IsDigit(Timestamp(d)[k])
    ensures ParseTimestamp(Timestamp(d)) == Some(d)
  {
    FourDigitYear(d.year);
    var y, mo, da, h, mi, se, us :=
      Decimal(d.year), Padded(d.month, 2), Padded(d.day, 2), Padded(d.hour, 2),
      Padded(d.minute, 2), Padded(d.second, 2), Padded(d.microsecond, 6);
    var s := Timestamp(d);
    assert s == y + mo + da + h + mi + se + us;
    SevenFields(y, mo, da, h, mi, se, us);
    assert Pow10(2) == 100 && Pow10(4) == 10000 && Pow10(6) == 1000000;
    ValueOfPadded(d.year, 4);
    ValueOfPadded(d.month, 2);
    ValueOfPadded(d.day, 2);
    ValueOfPadded(d.hour, 2);
    ValueOfPadded(d.minute, 2);
    ValueOfPadded(d.second, 2);
    ValueOfPadded(d.microsecond, 6);
  }
}
