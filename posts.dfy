/**
 * The canonical post (`NormalizedPost`) and its timestamp.
 *
 * A timestamp is either the "missing" sentinel (`datetime.min` in the source) or a local time in the
 * one configured display zone, counted in whole seconds from 0001-01-01 00:00:00 local time (the
 * origin of Python's proleptic Gregorian calendar) plus the microseconds that `%f` parses, together
 * with the zone's abbreviation that `%Z` prints.
 */
module Posts {
  import opened Strings

  const SecondsPerDay: nat := 86400

  /** Day number of 9999-12-31 plus one: `datetime` cannot represent anything later. */
  const DaysInCalendar: nat := 3652059

  const MicrosPerSecond: nat := 1000000

  type Seconds = s: nat | s < DaysInCalendar * SecondsPerDay

  /** The fraction of a second, in microseconds: `datetime`'s finest resolution. */
  type Micros = u: nat | u < MicrosPerSecond

  datatype Ts = Missing | At(localSeconds: Seconds, micros: Micros, zone: string)

  datatype Post = Post(
    timestamp: Ts,
    sourceUri: string,
    sourceApp: string,
    author: string,
    text: string,
    tags: seq<string>)

  /** `NormalizedPost()`: every field at its initial value. */
  function DefaultPost(): Post
  {
    Post(Missing, "", "", "", "", [])
  }

  /** The sort key: the sentinel comes before every real time, real times in chronological order
      down to the microsecond. */
  function Key(ts: Ts): nat
  {
    match ts
    case Missing => 0
    case At(s, u, _) => s * MicrosPerSecond + u + 1
  }

  /** The calendar date, as a day number (0 is 0001-01-01, the date of `datetime.min`). */
  function Day(ts: Ts): (d: nat)
    ensures d < DaysInCalendar
  {
    match ts
    case Missing => 0
    case At(s, _, _) => s / SecondsPerDay
  }

  /** Dates never run against timestamps: an earlier key never has a later date. */
  lemma DayMonotone(a: Ts, b: Ts)
    requires Key(a) <= Key(b)
    ensures Day(a) <= Day(b)
  {
    if a.At? && b.At? {
      SecondsMonotone(a, b);
      DivMonotone(a.localSeconds, b.localSeconds, SecondsPerDay);
    }
  }

  /** An earlier key is never a later whole second. */
  lemma SecondsMonotone(a: Ts, b: Ts)
    requires a.At? && b.At? && Key(a) <= Key(b)
    ensures a.localSeconds <= b.localSeconds
  {
  }

  /** Two real times have the same key exactly when they are the same instant, to the microsecond. */
  lemma KeyInjective(a: Ts, b: Ts)
    requires a.At? && b.At?
    ensures Key(a) == Key(b) <==> a.localSeconds == b.localSeconds && a.micros == b.micros
  {
    if Key(a) == Key(b) {
      SecondsMonotone(a, b);
      SecondsMonotone(b, a);
    }
  }

  lemma {:induction false} DivMonotone(x: nat, y: nat, d: nat)
    requires x <= y && d > 0
    ensures x / d <= y / d
  {
    if x / d > y / d {
      assert d * (x / d) + x % d == x;
      assert d * (y / d) + y % d == y;
      assert d * (x / d) >= d * (y / d + 1) by {
        MulMonotone(d, y / d + 1, x / d);
      }
    }
  }

  lemma MulMonotone(d: nat, a: nat, b: nat)
    requires a <= b
    ensures d * a <= d * b
  {
  }

  /** The last `width` decimal digits of `n`, zero-padded (strftime's `%02d` / `%04d` for values in range). */
  function Digits(n: nat, width: nat): (r: string)
    ensures |r| == width
    ensures forall i :: 0 <= i < |r| ==> '0' <= r[i] <= '9'
  {
    if width == 0 then ""
    else Digits(n / 10, width - 1) + [('0' as int + n % 10) as char]
  }

  /** `strftime("%H:%M:%S (%Z)")` of a real timestamp. */
  function TimeLabel(s: Seconds, zone: string): (r: string)
    ensures |r| == 11 + |zone| && r[2] == ':' && r[5] == ':'
    ensures forall i :: 0 <= i < 8 && i % 3 != 2 ==> '0' <= r[i] <= '9'
    ensures r[8..10] == " (" && r[10..10 + |zone|] == zone && r[|r| - 1] == ')'
  {
    var t := s % SecondsPerDay;
    Digits(t / 3600, 2) + ":" + Digits(t / 60 % 60, 2) + ":" + Digits(t % 60, 2) + " (" + zone + ")"
  }

  /** Gregorian leap years. */
  predicate IsLeap(y: nat)
  {
    y % 4 == 0 && (y % 100 != 0 || y % 400 == 0)
  }

  function YearLength(y: nat): nat
  {
    if IsLeap(y) then 366 else 365
  }

  /** The length of month `m` (1 to 12) of year `y`. */
  function MonthLength(y: nat, m: nat): (n: nat)
    ensures 28 <= n <= 31
  {
    if m == 2 then (if IsLeap(y) then 29 else 28)
    else if m == 4 || m == 6 || m == 9 || m == 11 then 30
    else 31
  }

  /** The year a day falls in, counting whole years from January 1 of year `y`, and the day's
      position in that year (0 is January 1). */
  function YearOf(day: nat, y: nat): (r: (nat, nat))
    ensures r.0 >= y && r.1 < YearLength(r.0)
    decreases day
  {
    if day < YearLength(y) then (y, day) else YearOf(day - YearLength(y), y + 1)
  }

  /** The month a position in year `y` falls in, counting whole months from month `m`, and the
      position in that month (0 is the first). */
  function MonthOf(pos: nat, y: nat, m: nat): (r: (nat, nat))
    requires 1 <= m <= 12
    ensures m <= r.0 <= 12
    ensures r.0 < 12 ==> r.1 < MonthLength(y, r.0)
    decreases 12 - m
  {
    if m == 12 || pos < MonthLength(y, m) then (m, pos) else MonthOf(pos - MonthLength(y, m), y, m + 1)
  }

  /** `strftime('%Y-%m-%d')` of a date: always ten characters. */
  function DateStr(day: nat): (r: string)
    ensures |r| == 10 && r[4] == '-' && r[7] == '-'
    ensures forall i :: 0 <= i < 10 && i != 4 && i != 7 ==> '0' <= r[i] <= '9'
  {
    var (y, pos) := YearOf(day, 1);
    var (m, d) := MonthOf(pos, y, 1);
    Digits(y, 4) + "-" + Digits(m, 2) + "-" + Digits(d + 1, 2)
  }

}
